/**
 The broker of src/broker.hpp: a mutable tree of nodes keyed by topic level, and a cache.
 Every method is proved against the state machine of module Subscriptions.
 */
module Broker {
  import opened Bytes
  import opened Topics
  import opened Subscriptions

  /** Everything sent to connections, in order: newMessage and disconnect append here. */
  class Network {
    var events: seq<Event>

    constructor ()
      ensures events == []
    {
      events := [];
    }

    method NewMessage(to: Client, bytes: Bytes)
      modifies this
      ensures events == old(events) + [Message(to, bytes)]
    {
      events := events + [Message(to, bytes)];
    }

    method Disconnect(to: Client)
      modifies this
      ensures events == old(events) + [Disconnected(to)]
    {
      events := events + [Disconnected(to)];
    }
  }

  class Node {
    var children: map<String, Node>
    var leaves: seq<Record>

    constructor ()
      ensures children == map[] && leaves == []
    {
      children, leaves := map[], [];
    }
  }

  class MqttBroker {
    const useCache: bool
    const net: Network
    const tree: Node
    var cache: map<String, seq<Client>>

    /** The flat list of records that the tree stands for, in subscription order. */
    ghost var live: seq<Record>

    /** Every node of the tree, by the path that leads to it. */
    ghost var nodes: map<Path, Node>

    /** The nodes form a tree: one path to each node, and every path goes through its parent. */
    ghost predicate Shape()
      reads this`nodes, nodes.Values`children
    {
      && [] in nodes && nodes[[]] == tree
      && (forall p, k {:trigger k in nodes[p].children} :: p in nodes && k in nodes[p].children ==>
            p + [k] in nodes && nodes[p + [k]] == nodes[p].children[k])
      && (forall p, k {:trigger p + [k] in nodes} :: p + [k] in nodes ==> p in nodes && k in nodes[p].children)
      && (forall p, q {:trigger nodes[p], nodes[q]} :: p in nodes && q in nodes && nodes[p] == nodes[q] ==> p == q)
    }

    /** Every record is a leaf of the node at its filter's path, and there is nothing else. */
    ghost predicate Holds()
      reads this`live, this`nodes, nodes.Values`leaves
    {
      && (forall p {:trigger nodes[p].leaves} :: p in nodes ==> nodes[p].leaves == OnPath(live, p))
      && (forall r {:trigger r in live} :: r in live ==> Split(r.filter) in nodes)
    }

    ghost predicate Valid()
      reads this`live, this`nodes, nodes.Values
    {
      Shape() && Holds()
    }

    ghost function State(): State
      reads this`live, this`cache
    {
      Subscriptions.State.State(useCache, live, cache)
    }

    ghost function Repr(): set<object>
      reads this`nodes
    {
      {this, net} + nodes.Values
    }

    /** Following the children named by `path` leads from one node to another. */
    ghost predicate Leads(node: Node, path: Path, target: Node)
      reads this`nodes, nodes.Values
      decreases |path|
    {
      && node in nodes.Values
      && if path == [] then node == target
         else path[0] in node.children && Leads(node.children[path[0]], path[1..], target)
    }

    /** `nodes` is what the pointers say: a path is in it just when it leads from the root to its node. */
    lemma {:induction false} NodesAreReachable(prefix: Path, path: Path, target: Node)
      requires Shape() && prefix in nodes
      ensures Leads(nodes[prefix], path, target) <==> prefix + path in nodes && nodes[prefix + path] == target
      decreases |path|
    {
      if path == [] {
        assert prefix + path == prefix;
      } else {
        OneLevelDown(prefix, path);
        if prefix + path in nodes {
          PrefixClosed(prefix + path, prefix + [path[0]]);
        }
        if path[0] in nodes[prefix].children {
          NodesAreReachable(prefix + [path[0]], path[1..], target);
        }
      }
    }

    /** The nodes below two different children are different nodes, and no node is below itself. */
    lemma SubtreesDisjoint(p: Path, k: String, l: String, q: Path, r: Path)
      requires Shape() && p in nodes && q in nodes && r in nodes
      requires k != l && p + [k] <= q && p + [l] <= r
      ensures nodes[q] != nodes[r] && nodes[q] != nodes[p]
    {
      assert q[|p|] == k && r[|p|] == l;
    }

    constructor (useCache: bool, net: Network)
      ensures Valid() && State() == Start(useCache)
      ensures this.net == net && fresh(Repr() - {net})
    {
      this.useCache, this.net := useCache, net;
      cache, live := map[], [];
      var root := new Node();
      tree := root;
      nodes := map[[] := root];
    }

    method InvalidateCache()
      modifies this`cache
      ensures State() == Invalidated(old(State()))
    {
      if useCache { cache := map[]; }
    }

    // ---------- subscribing ----------

    /** Creates the child `part` of a node that has none of that name. */
    method AddChild(node: Node, ghost prefix: Path, part: String)
      requires Shape() && prefix in nodes && nodes[prefix] == node && part !in node.children
      modifies this`nodes, node`children
      ensures Shape() && part in node.children && prefix + [part] !in old(nodes)
      ensures nodes == old(nodes)[prefix + [part] := node.children[part]]
      ensures fresh(node.children[part]) && node.children[part].leaves == []
    {
      ghost var path := prefix + [part];
      var child := new Node();
      node.children := node.children[part := child];
      nodes := nodes[path := child];
      forall p, k {:trigger p + [k] in nodes} | p + [k] in nodes
        ensures p in nodes && k in nodes[p].children
      {
        if p + [k] == path { LastLevel(p, k, prefix, part); }
      }
      forall p, k {:trigger k in nodes[p].children} | p in nodes && k in nodes[p].children
        ensures p + [k] in nodes && nodes[p + [k]] == nodes[p].children[k]
      {
        if p + [k] == path { LastLevel(p, k, prefix, part); }
      }
    }

    /** Adds no record and moves none: only the missing nodes of the path appear, without leaves. */
    method AddOrFindNode(node: Node, ghost prefix: Path, parts: seq<String>) returns (found: Node)
      requires Shape() && prefix in nodes && nodes[prefix] == node
      modifies this`nodes, nodes.Values`children
      ensures Shape() && prefix + parts in nodes && nodes[prefix + parts] == found
      ensures forall p :: p in old(nodes) ==> p in nodes && nodes[p] == old(nodes)[p]
      ensures forall p :: p in nodes && p !in old(nodes) ==> fresh(nodes[p]) && nodes[p].leaves == []
      ensures forall p :: p in nodes && p !in old(nodes) ==> p <= prefix + parts
      decreases |parts|
    {
      if |parts| == 0 {
        assert prefix + parts == prefix;
        return node;
      }
      var part := parts[0];
      if part !in node.children {
        AddChild(node, prefix, part);
      }
      found := AddOrFindNode(node.children[part], prefix + [part], parts[1..]);
      OneLevelDown(prefix, parts);
    }

    /** New nodes without leaves leave the tree standing for the same records. */
    twostate lemma StillHolds()
      requires old(Holds()) && live == old(live)
      requires forall p :: p in old(nodes) ==>
                 p in nodes && nodes[p] == old(nodes[p]) && nodes[p].leaves == old(nodes[p].leaves)
      requires forall p :: p in nodes && p !in old(nodes) ==> nodes[p].leaves == []
      ensures Holds()
    {
      forall p | p in nodes ensures nodes[p].leaves == OnPath(live, p) {
        if p !in old(nodes) {
          FilterNone(AtPath(p), live);
        }
      }
    }

    /** leaves.emplace_back: the node at the filter's own path gets the record, no other changes. */
    method AppendLeaf(node: Node, ghost path: Path, r: Record)
      requires Valid() && path in nodes && nodes[path] == node && path == Split(r.filter)
      modifies node`leaves, this`live
      ensures Valid() && live == old(live) + [r] && node.leaves == old(node.leaves) + [r]
    {
      node.leaves := node.leaves + [r];
      live := live + [r];
      forall p | p in nodes ensures nodes[p].leaves == OnPath(live, p) {
        FilterAppend(AtPath(p), old(live), [r]);
      }
    }

    /** The loop body of subscribe: one record for one topic. */
    method SubscribeOne(subscriber: Client, topic: String)
      requires Valid()
      modifies this`live, this`nodes, nodes.Values
      ensures Valid() && live == old(live) + [Record(subscriber, topic)]
      ensures forall p :: p in old(nodes) ==> p in nodes && nodes[p] == old(nodes)[p]
      ensures forall p :: p in old(nodes) && p != Split(topic) ==> nodes[p].leaves == old(nodes[p].leaves)
      ensures forall p :: p in nodes && p !in old(nodes) ==> fresh(nodes[p]) && p <= Split(topic)
    {
      var subParts := Split(topic);
      var node := AddOrFindNode(tree, [], subParts);
      assert [] + subParts == subParts;
      StillHolds();
      AppendLeaf(node, subParts, Record(subscriber, topic));
    }

    /** One record per topic, appended; the tree stays a tree and no node is lost. */
    method Subscribe(subscriber: Client, topics: seq<Topic>)
      requires Valid()
      modifies this`cache, this`live, this`nodes, nodes.Values
      ensures Valid() && State() == Subscribed(old(State()), subscriber, Names(topics))
      ensures forall p :: p in old(nodes) ==> p in nodes && nodes[p] == old(nodes)[p]
      ensures forall p :: p in nodes && p !in old(nodes) ==> fresh(nodes[p])
    {
      InvalidateCache();
      ghost var all := NewRecords(subscriber, Names(topics));
      for i := 0 to |topics|
        invariant Valid() && live == old(live) + all[..i] && cache == Invalidated(old(State())).cache
        invariant forall p :: p in old(nodes) ==> p in nodes && nodes[p] == old(nodes)[p]
        invariant forall p :: p in nodes && p !in old(nodes) ==> fresh(nodes[p])
      {
        SubscribeOne(subscriber, topics[i].topic);
        TakeOneMore(all, i);
      }
      assert all[..|topics|] == all;
    }

    // ---------- publishing ----------

    /** All that publishing can change. */
    ghost function Output(): Outcome
      reads this`cache, net
    {
      Outcome(net.events, cache)
    }

    method PublishNode(node: Node, topic: String, bytes: Bytes)
      modifies this`cache, net
      ensures Output() == Sent(useCache, old(Output()), topic, bytes, node.leaves)
    {
      var leaves := node.leaves;
      for i := 0 to |leaves|
        invariant Output() == Sent(useCache, old(Output()), topic, bytes, leaves[..i])
      {
        var subscriber := leaves[i].client;
        net.NewMessage(subscriber, bytes);
        if useCache {
          cache := cache[topic := (if topic in cache then cache[topic] else []) + [subscriber]];
        }
        assert Clients([leaves[i]]) == [subscriber] && Messages([subscriber], bytes) == [Message(subscriber, bytes)];
        TakeOneMore(leaves, i);
        SentMore(useCache, old(Output()), topic, bytes, leaves[..i], [leaves[i]]);
      }
      assert leaves[..|leaves|] == leaves;
    }

    /** The walk below one node delivers to the records gathered from the flat list, in the order
        of Visited, and remembers exactly those deliveries. */
    method PublishImpl(node: Node, ghost prefix: Path, pubParts: seq<String>, topic: String, bytes: Bytes)
      requires Valid() && prefix in nodes && nodes[prefix] == node
      modifies this`cache, net
      ensures Output() == Sent(useCache, old(Output()), topic, bytes, Gather(live, prefix, Visited(pubParts)))
      decreases |pubParts|, 0
    {
      if |pubParts| == 0 { return; }
      var front, rest := pubParts[0], pubParts[1..];
      var parts := [front, HASH, PLUS];
      for i := 0 to 3
        invariant Output() ==
                  Sent(useCache, old(Output()), topic, bytes, Gather(live, prefix, Branches(parts[..i], rest)))
      {
        PublishPart(node, prefix, parts[i], rest, topic, bytes);
        NextBranch(live, prefix, parts, i, rest);
        SentMore(useCache, old(Output()), topic, bytes, Gather(live, prefix, Branches(parts[..i], rest)),
                 Gather(live, prefix, Branch(parts[i], rest)));
      }
      AllBranches(pubParts);
    }

    /** The loop body of publishImpl: the child called `part`, if there is one, and all below it. */
    method PublishPart(tree: Node, ghost prefix: Path, part: String, rest: seq<String>, topic: String, bytes: Bytes)
      requires Valid() && prefix in nodes && nodes[prefix] == tree
      modifies this`cache, net
      ensures Output() == Sent(useCache, old(Output()), topic, bytes, Gather(live, prefix, Branch(part, rest)))
      decreases |rest|, 1
    {
      if part in tree.children {
        var node := tree.children[part];
        ghost var path := prefix + [part];
        PublishHere(node, path, part, rest, topic, bytes);
        PublishImpl(node, path, rest, topic, bytes);
        SentMore(useCache, old(Output()), topic, bytes,
                 HereRecords(path, part, rest), Gather(live, path, Visited(rest)));
        SplitBranch(prefix, part, rest);
      } else {
        MissingChild(prefix, part, rest);
      }
    }

    /** The leaves that the walk reads at one child and, for the last level, at its '#' child. */
    method PublishHere(node: Node, ghost path: Path, part: String, rest: seq<String>, topic: String, bytes: Bytes)
      requires Valid() && path in nodes && nodes[path] == node
      modifies this`cache, net
      ensures Output() == Sent(useCache, old(Output()), topic, bytes, HereRecords(path, part, rest))
    {
      ghost var a := if rest == [] || part == HASH then OnPath(live, path) else [];
      ghost var b := if rest == [] then OnPath(live, path + [HASH]) else [];
      if |rest| == 0 || part == HASH {
        PublishNode(node, topic, bytes);
      }
      if |rest| == 0 {
        if HASH in node.children {
          // so that "finance/#" matches "finance"
          PublishNode(node.children[HASH], topic, bytes);
        } else {
          NoLeaves(path + [HASH]);
        }
      }
      SentMore(useCache, old(Output()), topic, bytes, a, b);
    }

    lemma NoLeaves(p: Path)
      requires Valid() && p !in nodes
      ensures OnPath(live, p) == []
    {
      FilterNone(AtPath(p), live);
    }

    ghost function HereRecords(path: Path, part: String, rest: Path): seq<Record>
      reads this`live
    {
      (if rest == [] || part == HASH then OnPath(live, path) else [])
      + (if rest == [] then OnPath(live, path + [HASH]) else [])
    }

    lemma SplitBranch(prefix: Path, part: String, rest: Path)
      ensures Gather(live, prefix, Branch(part, rest)) ==
              HereRecords(prefix + [part], part, rest) + Gather(live, prefix + [part], Visited(rest))
    {
      var a := if rest == [] || part == HASH then [[part]] else [];
      var b := if rest == [] then [[part, HASH]] else [];
      var c := Prepend(part, Visited(rest));
      assert prefix + [part, HASH] == prefix + [part] + [HASH];
      GatherOne(prefix, [part]);
      GatherOne(prefix, [part, HASH]);
      GatherAppend(live, prefix, a, b);
      GatherAppend(live, prefix, a + b, c);
      GatherPrepend(live, prefix, part, Visited(rest));
    }

    lemma GatherOne(prefix: Path, p: Path)
      ensures Gather(live, prefix, [p]) == OnPath(live, prefix + p)
    {
      assert [p][..0] == [];
    }

    lemma {:induction false} PrefixClosed(p: Path, q: Path)
      requires Shape() && p in nodes && q <= p
      ensures q in nodes
    {
      if q != p {
        assert p == p[..|p| - 1] + [p[|p| - 1]];
        PrefixClosed(p[..|p| - 1], q);
      }
    }

    /** A child that does not exist has no records at or below it. */
    lemma MissingChild(prefix: Path, part: String, rest: Path)
      requires Valid() && prefix in nodes && part !in nodes[prefix].children
      ensures Gather(live, prefix, Branch(part, rest)) == []
    {
      forall r | r in live ensures !(prefix + [part] <= Split(r.filter)) {
        if prefix + [part] <= Split(r.filter) {
          PrefixClosed(Split(r.filter), prefix + [part]);
        }
      }
      SplitBranch(prefix, part, rest);
      GatherNone(live, prefix + [part], [[], [HASH]]);
      GatherNone(live, prefix + [part], Visited(rest));
      FilterNone(AtPath(prefix + [part]), live);
      FilterNone(AtPath(prefix + [part] + [HASH]), live);
    }

    /** A cached topic is answered from the table; any other topic by the walk. */
    method Publish(topic: String, bytes: Bytes)
      requires Valid()
      modifies this`cache, net
      ensures State() == Published(old(State()), topic).0
      ensures net.events == old(net.events) + Messages(Published(old(State()), topic).1, bytes)
    {
      if useCache && topic in cache {
        PublishCached(cache[topic], bytes);
        return;
      }
      var pubParts := Split(topic);
      PublishImpl(tree, [], pubParts, topic, bytes);
    }

    /** The loop over the cached subscribers. */
    method PublishCached(subscribers: seq<Client>, bytes: Bytes)
      modifies net
      ensures net.events == old(net.events) + Messages(subscribers, bytes)
    {
      for i := 0 to |subscribers|
        invariant net.events == old(net.events) + Messages(subscribers[..i], bytes)
      {
        net.NewMessage(subscribers[i], bytes);
        TakeOneMore(subscribers, i);
        MessagesAppend(subscribers[..i], [subscribers[i]], bytes);
      }
      assert subscribers[..|subscribers|] == subscribers;
    }

    // ---------- unsubscribing ----------

    /** The nodes at or below a path. */
    ghost function Below(prefix: Path): set<Path>
      reads this`nodes
    {
      set p | p in nodes && prefix <= p
    }

    /** Filters the leaves of every node at or below `prefix` and leaves every node in place. The
        children are taken in an arbitrary order. */
    method UnsubscribeImpl(node: Node, ghost prefix: Path, subscriber: Client, topics: seq<String>)
      requires Shape() && prefix in nodes && nodes[prefix] == node
      modifies nodes.Values`leaves
      ensures forall p {:trigger nodes[p].leaves} :: p in nodes && prefix <= p ==>
                nodes[p].leaves == Keep(old(nodes[p].leaves), subscriber, topics)
      ensures forall p {:trigger nodes[p].leaves} :: p in nodes && !(prefix <= p) ==>
                nodes[p].leaves == old(nodes[p].leaves)
      decreases Below(prefix)
    {
      node.leaves := Keep(node.leaves, subscriber, topics);
      var todo := node.children.Keys;
      ReachedFirst(prefix);
      while todo != {}
        invariant todo <= node.children.Keys
        invariant forall p {:trigger nodes[p].leaves} :: p in nodes && Reached(prefix, todo, p) ==>
                    nodes[p].leaves == Keep(old(nodes[p].leaves), subscriber, topics)
        invariant forall p {:trigger nodes[p].leaves} :: p in nodes && !Reached(prefix, todo, p) ==>
                    nodes[p].leaves == old(nodes[p].leaves)
      {
        var part :| part in todo;
        BelowShrinks(prefix, part);
        UnsubscribeImpl(node.children[part], prefix + [part], subscriber, topics);
        ReachedNext(prefix, todo, part);
        todo := todo - {part};
      }
    }

    lemma BelowShrinks(prefix: Path, part: String)
      requires prefix in nodes
      ensures Below(prefix + [part]) < Below(prefix)
    {
      assert prefix in Below(prefix) && prefix !in Below(prefix + [part]);
    }

    /** Before the loop only the node itself is done with. */
    lemma ReachedFirst(prefix: Path)
      requires Shape() && prefix in nodes
      ensures forall p :: p in nodes && Reached(prefix, nodes[prefix].children.Keys, p) ==> p == prefix
    {
      forall p | p in nodes && prefix <= p && p != prefix
        ensures p[|prefix|] in nodes[prefix].children
      {
        BelowChild(prefix, p[|prefix|], p);
        PrefixClosed(p, prefix + [p[|prefix|]]);
      }
    }

    /** Exactly the named records of `subscriber` go; no node is pruned. */
    method Unsubscribe(subscriber: Client, topics: seq<String>)
      requires Valid()
      modifies this`cache, this`live, nodes.Values
      ensures Valid() && State() == Unsubscribed(old(State()), subscriber, topics)
    {
      InvalidateCache();
      UnsubscribeImpl(tree, [], subscriber, topics);
      live := Keep(live, subscriber, topics);
      forall p | p in nodes ensures nodes[p].leaves == OnPath(live, p) {
        FilterCommutes(NotSubscriber(subscriber, topics), AtPath(p), old(live));
      }
      forall r | r in live ensures Split(r.filter) in nodes {
        FilterMember(NotSubscriber(subscriber, topics), old(live), r);
      }
    }
  }

  datatype Outcome = Outcome(events: seq<Event>, cache: map<String, seq<Client>>)

  /** The output after delivering `bytes` to the subscribers of `rs`, one by one. */
  function Sent(useCache: bool, o: Outcome, topic: String, bytes: Bytes, rs: seq<Record>): Outcome {
    Outcome(o.events + Messages(Clients(rs), bytes), Remembered(useCache, o.cache, topic, Clients(rs)))
  }

  lemma SentMore(useCache: bool, o: Outcome, topic: String, bytes: Bytes, a: seq<Record>, b: seq<Record>)
    ensures Sent(useCache, Sent(useCache, o, topic, bytes, a), topic, bytes, b) ==
            Sent(useCache, o, topic, bytes, a + b)
  {
    assert Clients(a + b) == Clients(a) + Clients(b);
    MessagesAppend(Clients(a), Clients(b), bytes);
    RememberedAppend(useCache, o.cache, topic, Clients(a), Clients(b));
    assert o.events + Messages(Clients(a), bytes) + Messages(Clients(b), bytes) ==
           o.events + (Messages(Clients(a), bytes) + Messages(Clients(b), bytes));
  }

  lemma NextBranch(live: seq<Record>, prefix: Path, parts: seq<String>, i: nat, rest: Path)
    requires i < |parts|
    ensures Gather(live, prefix, Branches(parts[..i + 1], rest)) ==
            Gather(live, prefix, Branches(parts[..i], rest)) + Gather(live, prefix, Branch(parts[i], rest))
  {
    assert parts[..i + 1][..i] == parts[..i];
    GatherAppend(live, prefix, Branches(parts[..i], rest), Branch(parts[i], rest));
  }

  /** The concatenated branches for several parts. */
  function Branches(parts: seq<String>, rest: Path): seq<Path> {
    if parts == [] then [] else Branches(parts[..|parts| - 1], rest) + Branch(parts[|parts| - 1], rest)
  }

  /** The loop over the children is done with path `p`: it lies under none of those still to do. */
  predicate Reached(prefix: Path, todo: set<String>, p: Path) {
    prefix <= p && (p == prefix || p[|prefix|] !in todo)
  }

  lemma ReachedNext(prefix: Path, todo: set<String>, part: String)
    requires part in todo
    ensures forall p {:trigger Reached(prefix, todo - {part}, p)} ::
              Reached(prefix, todo - {part}, p) <==> Reached(prefix, todo, p) || prefix + [part] <= p
    ensures forall p {:trigger Reached(prefix, todo, p)} :: Reached(prefix, todo, p) ==> !(prefix + [part] <= p)
  {
    forall p {:trigger Reached(prefix, todo, p)}
      ensures Reached(prefix, todo - {part}, p) <==> Reached(prefix, todo, p) || prefix + [part] <= p
      ensures Reached(prefix, todo, p) ==> !(prefix + [part] <= p)
    {
      BelowChild(prefix, part, p);
    }
  }

  lemma AllBranches(topic: Path)
    requires topic != []
    ensures Branches([topic[0], HASH, PLUS][..3], topic[1..]) == Visited(topic)
  {
    var parts, rest := [topic[0], HASH, PLUS], topic[1..];
    assert parts[..3] == parts && parts[..2] == [topic[0], HASH] && parts[..2][..1] == [topic[0]];
    assert Branches([topic[0]], rest) == Branch(topic[0], rest);
    assert Branches([topic[0], HASH], rest) == Branch(topic[0], rest) + Branch(HASH, rest);
  }

  lemma LastLevel(p: Path, k: String, q: Path, l: String)
    requires p + [k] == q + [l]
    ensures p == q && k == l
  {
    assert (p + [k])[..|p|] == p && (q + [l])[..|q|] == q;
    assert (p + [k])[|p|] == k && (q + [l])[|q|] == l;
  }

  lemma TakeOneMore<T>(s: seq<T>, i: nat)
    requires i < |s|
    ensures s[..i + 1] == s[..i] + [s[i]]
  {
  }

  lemma OneLevelDown(prefix: Path, parts: Path)
    requires parts != []
    ensures prefix + [parts[0]] + parts[1..] == prefix + parts
    ensures prefix + [parts[0]] <= prefix + parts
  {
  }

  /** A path lies below a child exactly when it goes on from its parent with the child's name. */
  lemma BelowChild(prefix: Path, part: String, p: Path)
    ensures prefix + [part] <= p <==> prefix <= p && p != prefix && p[|prefix|] == part
  {
    if prefix <= p && p != prefix {
      assert p[..|prefix| + 1] == prefix + [p[|prefix|]];
    }
  }

  lemma RememberedAppend(useCache: bool, cache: map<String, seq<Client>>, topic: String, a: seq<Client>, b: seq<Client>)
    ensures Remembered(useCache, Remembered(useCache, cache, topic, a), topic, b) ==
            Remembered(useCache, cache, topic, a + b)
  {
    if a == [] {
      assert a + b == b;
    } else if b == [] {
      assert a + b == a;
    } else {
      var before := if topic in cache then cache[topic] else [];
      assert before + a + b == before + (a + b);
    }
  }

  lemma MessagesAppend(a: seq<Client>, b: seq<Client>, bytes: Bytes)
    ensures Messages(a + b, bytes) == Messages(a, bytes) + Messages(b, bytes)
  {
  }
}
