/**
 Topic names, topic filters and the order in which the broker's tree walk visits filters.
 The reference for matching is section 4.7.1 of MQTT 3.1.1.
 */
module Topics {
  import opened Bytes

  /** A topic or a filter, cut into levels. */
  type Path = seq<String>

  /** MqttSubscribe::Topic: a filter and the quality of service asked for. */
  datatype Topic = Topic(topic: String, qos: byte)

  function Names(topics: seq<Topic>): (names: seq<String>)
    ensures |names| == |topics|
  {
    seq(|topics|, i requires 0 <= i < |topics| => topics[i].topic)
  }

  const SLASH: byte := 47
  const HASH: String := [35]
  const PLUS: String := [43]

  // ---------- cutting a topic into levels ----------

  /** boost::split at '/': empty levels are kept and the result is never empty. */
  function Split(s: String): (p: Path)
    ensures |p| > 0
    ensures forall k :: 0 <= k < |p| ==> SLASH !in p[k]
  {
    if s == [] then [[]] else
      var rest := Split(s[1..]);
      if s[0] == SLASH then [[]] + rest else [[s[0]] + rest[0]] + rest[1..]
  }

  function Join(p: Path): String
    requires p != []
  {
    if |p| == 1 then p[0] else p[0] + [SLASH] + Join(p[1..])
  }

  lemma {:induction false} JoinUndoesSplit(s: String)
    ensures Join(Split(s)) == s
  {
    if s != [] {
      var rest := Split(s[1..]);
      JoinUndoesSplit(s[1..]);
      if s[0] == SLASH {
        assert ([[]] + rest)[1..] == rest;
      } else {
        var p := [[s[0]] + rest[0]] + rest[1..];
        assert p[1..] == rest[1..];
      }
    }
  }

  /** Splitting after a slash starts a new level. */
  lemma {:induction false} SplitAtSlash(a: String, s: String)
    requires SLASH !in a
    ensures Split(a + [SLASH] + s) == [a] + Split(s)
  {
    var whole := a + [SLASH] + s;
    if a == [] {
      assert whole[1..] == s;
    } else {
      SplitAtSlash(a[1..], s);
      assert whole[1..] == a[1..] + [SLASH] + s;
      assert ([a[1..]] + Split(s))[1..] == Split(s);
      assert [a[0]] + a[1..] == a;
    }
  }

  lemma {:induction false} SplitOneLevel(a: String)
    requires SLASH !in a
    ensures Split(a) == [a]
  {
    if a != [] {
      SplitOneLevel(a[1..]);
      assert [a[0]] + a[1..] == a;
    }
  }

  lemma {:induction false} SplitUndoesJoin(p: Path)
    requires p != [] && forall k :: 0 <= k < |p| ==> SLASH !in p[k]
    ensures Split(Join(p)) == p
  {
    if |p| == 1 {
      SplitOneLevel(p[0]);
    } else {
      SplitUndoesJoin(p[1..]);
      SplitAtSlash(p[0], Join(p[1..]));
      assert p == [p[0]] + p[1..];
    }
  }

  /** Distinct filter strings sit at distinct nodes of the tree. */
  lemma SplitInjective(s: String, t: String)
    requires Split(s) == Split(t)
    ensures s == t
  {
    JoinUndoesSplit(s);
    JoinUndoesSplit(t);
  }

  // ---------- the standard's matcher ----------

  /** Section 4.7.1 of MQTT 3.1.1, level by level: '+' stands for one level, and a last
      '#' for any number of levels including none, so that "a/#" matches "a". */
  predicate Matches(filter: Path, topic: Path) {
    if filter == [] then topic == []
    else if filter == [HASH] then true
    else topic != [] && (filter[0] == PLUS || filter[0] == topic[0]) && Matches(filter[1..], topic[1..])
  }

  /** '#' occurs as the last level only, as section 4.7.1.2 demands. */
  predicate HashOnlyLast(filter: Path) {
    forall k :: 0 <= k < |filter| - 1 ==> filter[k] != HASH
  }

  /** No level is a wildcard character, as section 3.3.2.1 demands of a published topic. */
  predicate NoWildcards(topic: Path) {
    forall k :: 0 <= k < |topic| ==> topic[k] != HASH && topic[k] != PLUS
  }

  /** At the character level: one level more than there are slashes, and none of them with a slash. */
  lemma {:induction false} SplitAtSlashes(s: String)
    ensures |Split(s)| == 1 + multiset(s)[47]
    ensures forall k :: 0 <= k < |Split(s)| ==> 47 !in Split(s)[k]
  {
    if s != [] {
      SplitAtSlashes(s[1..]);
      assert s == [s[0]] + s[1..];
    }
  }

  /** At the character level: no level matches no level, a last level "#" matches anything, "+" matches
      any one level, and any other level just itself. */
  lemma WildcardCharacters(level: String, filter: Path, topic: Path)
    ensures Matches([], topic) <==> topic == []
    ensures Matches([[35]], topic)
    ensures Matches([[43]] + filter, topic) <==> topic != [] && Matches(filter, topic[1..])
    ensures level != [35] && level != [43] ==>
              (Matches([level] + filter, topic) <==> topic != [] && topic[0] == level && Matches(filter, topic[1..]))
  {
    assert ([[43]] + filter)[1..] == filter && ([level] + filter)[1..] == filter;
    assert [[43]] + filter != [HASH] by { assert ([[43]] + filter)[0] == [43]; }
    if level != [35] {
      assert ([level] + filter)[0] != HASH;
    }
  }

  // ---------- the walk ----------

  function Prepend(part: String, ps: seq<Path>): (r: seq<Path>)
    ensures |r| == |ps|
  {
    seq(|ps|, i requires 0 <= i < |ps| => [part] + ps[i])
  }

  /** The filters visited below the child named `part` while `rest` levels are still to come. */
  function Branch(part: String, rest: Path): seq<Path>
    decreases |rest|, 1
  {
    (if rest == [] || part == HASH then [[part]] else [])
    + (if rest == [] then [[part, HASH]] else [])
    + Prepend(part, Visited(rest))
  }

  /** The filters whose nodes one walk for `topic` visits, in the order of the visits. */
  function Visited(topic: Path): seq<Path>
    decreases |topic|, 0
  {
    if topic == [] then [] else
      Branch(topic[0], topic[1..]) + Branch(HASH, topic[1..]) + Branch(PLUS, topic[1..])
  }

  /** '#' anywhere but last is walked as a one-level wildcard: here it is written as one. */
  function OneLevelHashes(filter: Path): (r: Path)
    ensures |r| == |filter|
    ensures HashOnlyLast(filter) ==> r == filter
  {
    if |filter| <= 1 then filter else
      assert HashOnlyLast(filter) ==> filter[0] != HASH && HashOnlyLast(filter[1..]);
      [if filter[0] == HASH then PLUS else filter[0]] + OneLevelHashes(filter[1..])
  }

  lemma InPrepend(part: String, ps: seq<Path>, p: Path)
    ensures p in Prepend(part, ps) <==> p != [] && p[0] == part && p[1..] in ps
  {
    var r := Prepend(part, ps);
    if p in r {
      var i :| 0 <= i < |r| && r[i] == p;
      assert p[1..] == ps[i];
    }
    if p != [] && p[0] == part && p[1..] in ps {
      var i :| 0 <= i < |ps| && ps[i] == p[1..];
      assert r[i] == [part] + ps[i] == p;
    }
  }

  lemma InBranch(part: String, rest: Path, p: Path)
    ensures p in Branch(part, rest) <==>
            && p != [] && p[0] == part
            && (|| ((rest == [] || part == HASH) && |p| == 1)
                || (rest == [] && p[1..] == [HASH])
                || p[1..] in Visited(rest))
  {
    InPrepend(part, Visited(rest), p);
    if p != [] && p[0] == part {
      if |p| == 1 { assert p == [part]; }
      if p[1..] == [HASH] { assert p == [part, HASH]; }
    }
  }

  lemma InVisited(topic: Path, p: Path)
    ensures p in Visited(topic) <==>
            && topic != []
            && (p in Branch(topic[0], topic[1..]) || p in Branch(HASH, topic[1..]) || p in Branch(PLUS, topic[1..]))
  {
  }

  /** The walk visits exactly the filters that match, for every filter and every topic at all. */
  lemma {:induction false} VisitedIffMatches(p: Path, topic: Path)
    ensures p in Visited(topic) <==> topic != [] && p != [] && Matches(OneLevelHashes(p), topic)
    decreases |topic|
  {
    if topic != [] {
      var rest := topic[1..];
      InVisited(topic, p);
      InBranch(topic[0], rest, p);
      InBranch(HASH, rest, p);
      InBranch(PLUS, rest, p);
      if p != [] {
        VisitedIffMatches(p[1..], rest);
        var q := OneLevelHashes(p);
        if |p| == 1 {
          assert p[1..] == [];
        } else {
          assert q[1..] == OneLevelHashes(p[1..]);
          assert Matches(q, topic) <==>
                 (q[0] == PLUS || q[0] == topic[0]) && Matches(q[1..], rest);
        }
      }
    }
  }

  /** A level that no wildcard is: the character 'x'. */
  const PLAIN: String := [120]

  /** A published topic that `filter` should reach if its inner '#' were one-level wildcards. */
  function PlainTopic(filter: Path): (t: Path)
    ensures |t| == |filter| && NoWildcards(t)
    ensures (forall k :: 0 <= k < |filter| ==> SLASH !in filter[k]) ==> forall k :: 0 <= k < |t| ==> SLASH !in t[k]
  {
    seq(|filter|, i requires 0 <= i < |filter| =>
          if filter[i] == HASH || filter[i] == PLUS then PLAIN else filter[i])
  }

  lemma {:induction false} PlainTopicVisited(filter: Path)
    requires filter != []
    ensures filter in Visited(PlainTopic(filter))
  {
    PlainTopicMatches(filter);
    VisitedIffMatches(filter, PlainTopic(filter));
  }

  lemma {:induction false} PlainTopicMatches(filter: Path)
    requires filter != []
    ensures Matches(OneLevelHashes(filter), PlainTopic(filter))
  {
    if |filter| > 1 {
      PlainTopicMatches(filter[1..]);
      assert PlainTopic(filter)[1..] == PlainTopic(filter[1..]);
      assert OneLevelHashes(filter)[1..] == OneLevelHashes(filter[1..]);
    }
  }

  /** The standard's matcher has no use for an inner '#': it matches no published topic. */
  lemma {:induction false} InnerHashMatchesNothing(filter: Path, topic: Path)
    requires !HashOnlyLast(filter) && NoWildcards(topic)
    ensures !Matches(filter, topic)
    decreases |filter|
  {
    if filter[0] != HASH && topic != [] {
      assert !HashOnlyLast(filter[1..]) by {
        var k :| 0 <= k < |filter| - 1 && filter[k] == HASH;
        assert filter[1..][k - 1] == HASH;
      }
      InnerHashMatchesNothing(filter[1..], topic[1..]);
    }
  }

  /** The walk visits a filter's node for just the published topics that the standard's matcher
      gives it, if and only if '#' occurs in the filter as the last level only. */
  lemma VisitsAgreeIff(filter: Path)
    ensures (forall topic :: topic != [] && NoWildcards(topic) ==>
               (filter in Visited(topic) <==> Matches(filter, topic)))
            <==> HashOnlyLast(filter)
  {
    if HashOnlyLast(filter) {
      forall topic: Path | topic != [] && NoWildcards(topic)
        ensures filter in Visited(topic) <==> Matches(filter, topic)
      {
        VisitedIffMatches(filter, topic);
      }
    } else {
      PlainTopicVisited(filter);
      InnerHashMatchesNothing(filter, PlainTopic(filter));
    }
  }

  /** The visits below one child, in order, at the last level. */
  lemma VisitsOfLast(part: String)
    ensures Branch(part, []) == [[part], [part, [35]]]
  {
    assert Prepend(part, Visited([])) == [];
  }

  /** The visits for a topic of one level, in order. */
  lemma VisitsOfOne(x: String)
    ensures Visited([x]) == [[x], [x, [35]], [[35]], [[35], [35]], [[43]], [[43], [35]]]
  {
    assert [x][1..] == [];
    VisitsOfLast(x);
    VisitsOfLast([35]);
    VisitsOfLast([43]);
  }

  /** The visits for a longer topic, in order: the "a/#" shortcut comes before what lies below it. */
  lemma VisitsOfMore(x: String, rest: Path)
    requires rest != [] && x != [35]
    ensures Visited([x] + rest) ==
            Prepend(x, Visited(rest)) + ([[[35]]] + Prepend([35], Visited(rest))) + Prepend([43], Visited(rest))
  {
    assert ([x] + rest)[1..] == rest;
    BranchOfMore(x, rest);
    BranchOfMore([35], rest);
    BranchOfMore([43], rest);
  }

  lemma BranchOfMore(part: String, rest: Path)
    requires rest != []
    ensures Branch(part, rest) == (if part == [35] then [[part]] else []) + Prepend(part, Visited(rest))
  {
    var below := Prepend(part, Visited(rest));
    if part != [35] {
      assert Branch(part, rest) == [] + [] + below;
    }
  }

  /** "a/+" and "a/#" are delivered on "a/b", and "+" is not; "a/#" is delivered on "a" as well. */
  lemma DeliveredOnExamples()
    ensures Split([97, 47, 43]) in Visited(Split([97, 47, 98]))
    ensures Split([97, 47, 35]) in Visited(Split([97, 47, 98]))
    ensures Split([43]) !in Visited(Split([97, 47, 98]))
    ensures Split([97, 47, 35]) in Visited(Split([97]))
  {
    var a: String := [97];
    SplitOneLevel(a);
    SplitOneLevel([43]);
    TwoLevels(98);
    TwoLevels(43);
    TwoLevels(35);
    WildcardCharacters([97], [[43]], [a, [98]]);
    WildcardCharacters([97], [], [a, [98]]);
    VisitsOfOne(a);
    VisitedIffMatches([a, [43]], [a, [98]]);
    VisitedIffMatches([a, [35]], [a, [98]]);
    VisitedIffMatches([[43]], [a, [98]]);
  }

  lemma TwoLevels(x: byte)
    requires x != 47
    ensures Split([97, 47, x]) == [[97], [x]]
  {
    SplitOneLevel([x]);
    SplitAtSlash([97], [x]);
    assert [97] + [47] + [x] == [97, 47, x];
  }

  predicate NoDuplicates<T(==)>(s: seq<T>) {
    forall i, j :: 0 <= i < j < |s| ==> s[i] != s[j]
  }

  lemma NoDuplicatesAppend<T>(a: seq<T>, b: seq<T>)
    requires NoDuplicates(a) && NoDuplicates(b)
    requires forall x :: x in a ==> x !in b
    ensures NoDuplicates(a + b)
  {
    forall i, j | 0 <= i < j < |a + b| ensures (a + b)[i] != (a + b)[j] {
      if i < |a| <= j {
        assert a[i] in a && b[j - |a|] in b;
      }
    }
  }

  lemma PrependNoDuplicates(part: String, ps: seq<Path>)
    requires NoDuplicates(ps)
    ensures NoDuplicates(Prepend(part, ps))
  {
    var r := Prepend(part, ps);
    forall i, j | 0 <= i < j < |r| ensures r[i] != r[j] {
      assert r[i][1..] == ps[i] && r[j][1..] == ps[j];
    }
  }

  lemma BranchNoDuplicates(part: String, rest: Path)
    requires NoDuplicates(Visited(rest))
    ensures NoDuplicates(Branch(part, rest))
  {
    var tail := Prepend(part, Visited(rest));
    PrependNoDuplicates(part, Visited(rest));
    if rest == [] {
      assert |[part]| == 1 && |[part, HASH]| == 2;
    } else if part != HASH {
      assert Branch(part, rest) == tail;
    } else {
      assert Branch(part, rest) == [[part]] + tail;
      InPrepend(part, Visited(rest), [part]);
      VisitedIffMatches([], rest);
      NoDuplicatesAppend([[part]], tail);
    }
  }

  /** No filter is visited twice: the "a/#" shortcut and the recursion never both fire. */
  lemma {:induction false} VisitedAtMostOnce(topic: Path)
    requires NoWildcards(topic)
    ensures NoDuplicates(Visited(topic))
    decreases |topic|
  {
    if topic != [] {
      var rest := topic[1..];
      VisitedAtMostOnce(rest);
      BranchNoDuplicates(topic[0], rest);
      BranchNoDuplicates(HASH, rest);
      BranchNoDuplicates(PLUS, rest);
      BranchesDisjoint(topic[0], HASH, rest);
      BranchesDisjoint(topic[0], PLUS, rest);
      BranchesDisjoint(HASH, PLUS, rest);
      NoDuplicatesAppend(Branch(topic[0], rest), Branch(HASH, rest));
      NoDuplicatesAppend(Branch(topic[0], rest) + Branch(HASH, rest), Branch(PLUS, rest));
    }
  }

  lemma BranchesDisjoint(part: String, part': String, rest: Path)
    requires part != part'
    ensures forall p :: p in Branch(part, rest) ==> p !in Branch(part', rest)
  {
    forall p | p in Branch(part, rest) ensures p !in Branch(part', rest) {
      InBranch(part, rest, p);
      InBranch(part', rest, p);
    }
  }

  /** A filter with '#' last only that is visited twice when `topic` has a wildcard level. */
  function TwiceVisited(topic: Path): (p: Path)
    requires !NoWildcards(topic)
    ensures p != [] && HashOnlyLast(p)
    ensures (forall k :: 0 <= k < |topic| ==> SLASH !in topic[k]) ==> forall k :: 0 <= k < |p| ==> SLASH !in p[k]
  {
    if topic[0] == HASH then [HASH]
    else if topic[0] == PLUS then if |topic| == 1 then [PLUS] else [PLUS, HASH]
    else [topic[0]] + TwiceVisited(topic[1..])
  }

  lemma {:induction false} PrependCount(part: String, ps: seq<Path>, p: Path)
    ensures multiset(Prepend(part, ps))[[part] + p] == multiset(ps)[p]
  {
    if ps != [] {
      var init, last := ps[..|ps| - 1], ps[|ps| - 1];
      PrependCount(part, init, p);
      assert Prepend(part, ps) == Prepend(part, init) + [[part] + last];
      assert ps == init + [last];
      assert [part] + last == [part] + p <==> last == p by {
        assert ([part] + last)[1..] == last && ([part] + p)[1..] == p;
      }
    }
  }

  lemma BranchCount(part: String, rest: Path, p: Path)
    ensures multiset(Branch(part, rest))[[part] + p] >= multiset(Visited(rest))[p]
  {
    PrependCount(part, Visited(rest), p);
  }

  lemma VisitedCount(topic: Path, p: Path)
    requires topic != []
    ensures multiset(Visited(topic))[p] ==
            multiset(Branch(topic[0], topic[1..]))[p] + multiset(Branch(HASH, topic[1..]))[p]
            + multiset(Branch(PLUS, topic[1..]))[p]
  {
  }

  lemma HashMatchesRest(rest: Path)
    requires rest != []
    ensures [HASH] in Visited(rest)
  {
    VisitedIffMatches([HASH], rest);
  }

  lemma FirstWildcardVisitedTwice(topic: Path)
    requires topic != [] && (topic[0] == HASH || topic[0] == PLUS)
    ensures multiset(Visited(topic))[TwiceVisited(topic)] >= 2
  {
    var first, rest, p := topic[0], topic[1..], TwiceVisited(topic);
    assert p in Branch(first, rest) by {
      InBranch(first, rest, p);
      if rest != [] { HashMatchesRest(rest); }
    }
    VisitedCount(topic, p);
  }

  lemma {:induction false} WildcardVisitedTwice(topic: Path)
    requires !NoWildcards(topic)
    ensures multiset(Visited(topic))[TwiceVisited(topic)] >= 2
    decreases |topic|
  {
    var rest, p := topic[1..], TwiceVisited(topic);
    if topic[0] == HASH || topic[0] == PLUS {
      FirstWildcardVisitedTwice(topic);
    } else {
      assert !NoWildcards(rest) by { assert forall k :: 0 <= k < |rest| ==> rest[k] == topic[k + 1]; }
      WildcardVisitedTwice(rest);
      BranchCount(topic[0], rest, TwiceVisited(rest));
      VisitedCount(topic, p);
    }
  }

  /** A published topic makes the walk visit every matching filter exactly once if and only if
      none of its levels is a wildcard. */
  lemma VisitedOnceIff(topic: Path)
    ensures NoDuplicates(Visited(topic)) <==> NoWildcards(topic)
  {
    if NoWildcards(topic) {
      VisitedAtMostOnce(topic);
    } else {
      WildcardVisitedTwice(topic);
      if NoDuplicates(Visited(topic)) {
        CountNoDuplicates(Visited(topic), TwiceVisited(topic));
      }
    }
  }

  lemma {:induction false} CountNoDuplicates<T>(s: seq<T>, x: T)
    requires NoDuplicates(s)
    ensures multiset(s)[x] == if x in s then 1 else 0
  {
    if s != [] {
      var init := s[..|s| - 1];
      CountNoDuplicates(init, x);
      assert s == init + [s[|s| - 1]];
    }
  }
}
