/** Topics that outlive TOPIC_LIFE_TIME leave the forum, and are put back when their block is undone. */
module Expiry {
  import opened Lists
  import opened Chain
  import opened Books
  import opened Inverse
  import opened Invariant

  /** An entry of m_rollback_topics: the topic object as it was when it expired. */
  datatype Expired = Expired(key: Key, topic: Topic)

  function Tail<T>(q: seq<T>): seq<T> {
    if q == [] then [] else q[1..]
  }

  /** The oldest topic has outlived its life time at block `h`. */
  predicate FrontIsOld(f: Forum, h: nat) {
    f.queue != [] && f.queue[0] in f.topics && f.topics[f.queue[0]].born + TOPIC_LIFE_TIME < h
  }

  /** Account::leave_topic for every member. */
  function LeaveAll(joined: map<Pubkey, seq<Key>>, t: Topic, k: Key): map<Pubkey, seq<Key>> {
    map p | p in joined :: if IsMember(t, p) then EraseFirst(joined[p], k) else joined[p]
  }

  function ExpireFront(f: Forum): Forum
    requires f.queue != [] && f.queue[0] in f.topics
  {
    var k := f.queue[0];
    var t := f.topics[k];
    Forum(f.topics - {k},
          f.queue[1..],
          f.owned[t.owner := Tail(ListAt(f.owned, t.owner))],
          LeaveAll(f.joined, t, k))
  }

  function Expire(f: Forum, h: nat): Forum
    decreases |f.queue|
  {
    if FrontIsOld(f, h) then Expire(ExpireFront(f), h) else f
  }

  /** What the loop pushes to the front of its undo list, last expired first. */
  function ExpiredLog(f: Forum, h: nat): seq<Expired>
    decreases |f.queue|
  {
    if FrontIsOld(f, h)
    then ExpiredLog(ExpireFront(f), h) + [Expired(f.queue[0], f.topics[f.queue[0]])]
    else []
  }

  function Keys(log: seq<Expired>): set<Key> {
    set e | e in log :: e.key
  }

  function Worth(log: seq<Expired>): int {
    if log == [] then 0 else Worth(log[1..]) + log[0].topic.balance
  }

  function RejoinAll(joined: map<Pubkey, seq<Key>>, t: Topic, k: Key): map<Pubkey, seq<Key>> {
    map p | p in joined :: if IsMember(t, p) then [k] + joined[p] else joined[p]
  }

  /** One turn of the restoring loop; m_topics.insert does not overwrite. */
  function RestoreFront(f: Forum, e: Expired): Forum {
    Forum(if e.key in f.topics then f.topics else f.topics[e.key := e.topic],
          [e.key] + f.queue,
          f.owned[e.topic.owner := [e.key] + ListAt(f.owned, e.topic.owner)],
          RejoinAll(f.joined, e.topic, e.key))
  }

  function Restore(f: Forum, log: seq<Expired>): Forum
    decreases |log|
  {
    if log == [] then f else Restore(RestoreFront(f, log[0]), log[1..])
  }

  /** The tests proc_topic_expired makes against the owner's own list. */
  predicate OwnerAgrees(f: Forum) {
    && f.queue != [] && f.queue[0] in f.topics
    && var own := ListAt(f.owned, f.topics[f.queue[0]].owner);
       own != [] && own[0] == f.queue[0]
  }

  predicate ExpireOk(f: Forum, h: nat)
    decreases |f.queue|
  {
    FrontIsOld(f, h) ==> OwnerAgrees(f) && ExpireOk(ExpireFront(f), h)
  }

  // ---- What expiry keeps

  lemma FrontFacts(b: Books, h: nat)
    requires Sound(b, h) && b.forum.queue != []
    ensures b.forum.queue[0] in b.forum.topics
    ensures OwnerAgrees(b.forum)
    ensures b.forum.topics[b.forum.queue[0]].owner in b.forum.owned
  {
    var f := b.forum;
    var k := f.queue[0];
    var t := f.topics[k];
    assert TopicOk(b, k, t);
    assert AccountOk(b, t.owner);
    assert f.owned[t.owner] == OwnedBy(f.queue, t.owner);
  }

  /** Members of a live topic are exactly the accounts whose joined list has it. */
  lemma MembersAreJoiners(f: Forum, k: Key, p: Pubkey)
    requires Linked(f) && k in f.topics
    ensures IsMember(f.topics[k], p) <==> k in ListAt(f.joined, p)
  {
    if k in ListAt(f.joined, p) {
      assert JoinedListOk(f, p);
    }
  }

  lemma ExpireQueueOk(f: Forum, h: nat)
    requires QueueOk(f, h) && f.queue != [] && f.queue[0] in f.topics
    requires f.topics[f.queue[0]].owner == OwnerOf(f.queue[0]) && f.topics[f.queue[0]].owner in f.owned
    ensures QueueOk(ExpireFront(f), h)
  {
    hide LeaveAll;
    var g := ExpireFront(f);
    var k := f.queue[0];
    assert forall i :: 0 <= i < |g.queue| ==> g.queue[i] == f.queue[i + 1];
    assert SortedByAge(g) by {
      assert SortedByAge(f);
    }
    ExpireOwned(f, h);
    TailElements(f.queue);
  }

  lemma ExpireOwned(f: Forum, h: nat)
    requires QueueOk(f, h) && f.queue != [] && f.queue[0] in f.topics
    requires f.topics[f.queue[0]].owner == OwnerOf(f.queue[0]) && f.topics[f.queue[0]].owner in f.owned
    ensures forall p :: p in ExpireFront(f).owned ==> ExpireFront(f).owned[p] == OwnedBy(f.queue[1..], p)
  {
    hide LeaveAll, SortedByAge, NoneYounger;
  }

  lemma TailElements(q: seq<Key>)
    requires q != [] && NoDup(q)
    ensures forall x :: x in q[1..] <==> x in q && x != q[0]
  {
    assert q == [q[0]] + q[1..];
  }

  lemma ExpireTopicsOk(b: Books, d: Books, h: nat)
    requires Sound(b, h) && b.forum.queue != [] && b.forum.queue[0] in b.forum.topics
    requires d == b.(forum := ExpireFront(b.forum))
    ensures TopicsOk(d)
  {
    hide TopicOk, ColumnsOk, QueueOk, EraseFirst, IsMember;
    forall x | x in d.forum.topics ensures TopicOk(d, x, d.forum.topics[x]) {
      assert TopicOk(b, x, b.forum.topics[x]);
      TopicOkMono(b, d, x, b.forum.topics[x]);
    }
  }

  lemma ExpireJoinedOk(f: Forum)
    requires Linked(f) && f.queue != [] && f.queue[0] in f.topics
    ensures JoinedOk(ExpireFront(f))
  {
    var g := ExpireFront(f);
    var k := f.queue[0];
    forall p | p in g.joined ensures JoinedListOk(g, p) {
      assert JoinedListOk(f, p);
      MembersAreJoiners(f, k, p);
      EraseIsMinus(f.joined[p], k);
      MinusNoDup(f.joined[p], [k]);
    }
  }

  lemma ExpireMembersOk(f: Forum)
    requires Linked(f) && f.queue != [] && f.queue[0] in f.topics
    ensures MembersOk(ExpireFront(f))
  {
    hide IsMember;
    var g := ExpireFront(f);
    forall k, p | k in g.topics && IsMember(g.topics[k], p) ensures k in ListAt(g.joined, p) {
      assert k in ListAt(f.joined, p);
      assert JoinedListOk(f, p);
      EraseIsMinus(f.joined[p], f.queue[0]);
    }
  }

  lemma ExpireFrontSound(b: Books, h: nat)
    requires Sound(b, h) && b.forum.queue != [] && b.forum.queue[0] in b.forum.topics
    ensures Sound(b.(forum := ExpireFront(b.forum)), h)
  {
    var d := b.(forum := ExpireFront(b.forum));
    FrontFacts(b, h);
    assert TopicOk(b, b.forum.queue[0], b.forum.topics[b.forum.queue[0]]);
    ExpireQueueOk(b.forum, h);
    ExpireTopicsOk(b, d, h);
    ExpireColumnsOk(b, h);
  }

  lemma ExpireFrontInv(b: Books, h: nat)
    requires Inv(b, h) && b.forum.queue != [] && b.forum.queue[0] in b.forum.topics
    ensures Inv(b.(forum := ExpireFront(b.forum)), h)
  {
    hide Sound, ExpireFront;
    ExpireFrontSound(b, h);
    ExpireJoinedOk(b.forum);
    ExpireMembersOk(b.forum);
  }

  lemma ExpireColumnsOk(b: Books, h: nat)
    requires Sound(b, h) && b.forum.queue != [] && b.forum.queue[0] in b.forum.topics
    ensures ColumnsOk(b.(forum := ExpireFront(b.forum)))
  {
    FrontFacts(b, h);
    var d := b.(forum := ExpireFront(b.forum));
    forall p | p in d.reg.accounts ensures AccountOk(d, p) {
      assert AccountOk(b, p);
    }
  }

  /** Expiry cannot fail, keeps the books in order, and is exact: the topics of the last TOPIC_LIFE_TIME + 1
      blocks are left, and no others. */
  lemma {:induction false} ExpireSound(b: Books, h: nat)
    requires Sound(b, h)
    ensures ExpireOk(b.forum, h)
    ensures Sound(b.(forum := Expire(b.forum, h)), h)
    ensures forall k :: k in Expire(b.forum, h).topics <==>
                        k in b.forum.topics && b.forum.topics[k].born + TOPIC_LIFE_TIME >= h
    ensures forall k :: k in Expire(b.forum, h).topics ==> Expire(b.forum, h).topics[k] == b.forum.topics[k]
    decreases |b.forum.queue|
  {
    hide TopicsOk, ColumnsOk, QueueOk, OwnerAgrees;
    var f := b.forum;
    if FrontIsOld(f, h) {
      FrontFacts(b, h);
      ExpireFrontSound(b, h);
      var d := b.(forum := ExpireFront(f));
      ExpireSound(d, h);
    } else {
      assert b.(forum := f) == b;
      NoneOld(f, h);
    }
  }

  lemma {:induction false} ExpireInv(b: Books, h: nat)
    requires Inv(b, h)
    ensures Inv(b.(forum := Expire(b.forum, h)), h)
    decreases |b.forum.queue|
  {
    hide Inv;
    var f := b.forum;
    if FrontIsOld(f, h) {
      ExpireFrontInv(b, h);
      ExpireInv(b.(forum := ExpireFront(f)), h);
    } else {
      assert b.(forum := f) == b;
    }
  }

  lemma NoneOld(f: Forum, h: nat)
    requires QueueOk(f, h) && !FrontIsOld(f, h)
    ensures forall k :: k in f.topics ==> f.topics[k].born + TOPIC_LIFE_TIME >= h
  {
    forall k | k in f.topics ensures f.topics[k].born + TOPIC_LIFE_TIME >= h {
      assert k in f.queue;
      assert SortedByAge(f);
    }
  }

  // ---- Putting expired topics back

  /** The same forum, whatever the joined lists hold; only their lengths agree. */
  ghost predicate ForumAlike(s: Forum, r: Forum) {
    && s.topics == r.topics
    && s.queue == r.queue
    && s.owned == r.owned
    && (forall p :: p in s.joined <==> p in r.joined)
    && forall p :: p in r.joined ==> |s.joined[p]| == |r.joined[p]|
  }

  /** The joined lists hold the same topics, once each, in any order. */
  ghost predicate JoinedSame(s: Forum, r: Forum) {
    forall p :: p in r.joined ==> p in s.joined && Permuted(s.joined[p], r.joined[p])
  }

  ghost predicate ForumSim(s: Forum, r: Forum) {
    ForumAlike(s, r) && JoinedSame(s, r)
  }

  /** What the restoring loop pushes to the front of the joined list of `p`. */
  function Pushed(log: seq<Expired>, p: Pubkey): seq<Key> {
    if log == [] then []
    else Pushed(log[1..], p) + if IsMember(log[0].topic, p) then [log[0].key] else []
  }

  lemma {:induction false} PushedAppend(log: seq<Expired>, e: Expired, p: Pubkey)
    ensures Pushed(log + [e], p) == (if IsMember(e.topic, p) then [e.key] else []) + Pushed(log, p)
  {
    hide IsMember;
    if log == [] {
      assert log + [e] == [e];
    } else {
      PushedAppend(log[1..], e, p);
      assert (log + [e])[0] == log[0] && (log + [e])[1..] == log[1..] + [e];
    }
  }

  lemma {:induction false} RestoreAppend(f: Forum, log: seq<Expired>, e: Expired)
    ensures Restore(f, log + [e]) == RestoreFront(Restore(f, log), e)
    decreases |log|
  {
    if log == [] {
      assert log + [e] == [e];
      assert Restore(RestoreFront(f, e), []) == RestoreFront(f, e);
    } else {
      RestoreAppend(RestoreFront(f, log[0]), log[1..], e);
      assert (log + [e])[0] == log[0] && (log + [e])[1..] == log[1..] + [e];
    }
  }

  /** What restoring makes of a joined list, whatever it holds. */
  lemma {:induction false} RestoredList(f: Forum, log: seq<Expired>, p: Pubkey)
    requires p in f.joined
    ensures p in Restore(f, log).joined
    ensures Restore(f, log).joined[p] == Pushed(log, p) + f.joined[p]
    decreases |log|
  {
    hide IsMember;
    if log != [] {
      RestoredList(RestoreFront(f, log[0]), log[1..], p);
    }
  }

  lemma RestoreFrontAlike(s: Forum, b: Books, h: nat)
    requires Inv(b, h) && b.forum.queue != [] && b.forum.queue[0] in b.forum.topics
    requires ForumAlike(s, ExpireFront(b.forum))
    ensures ForumAlike(RestoreFront(s, Expired(b.forum.queue[0], b.forum.topics[b.forum.queue[0]])), b.forum)
  {
    hide FrontIsOld, TopicsOk, ColumnsOk, QueueOk, EraseFirst;
    FrontFacts(b, h);
    var f := b.forum;
    var k := f.queue[0];
    var t := f.topics[k];
    var g := RestoreFront(s, Expired(k, t));
    assert g.topics == f.topics;
    assert g.queue == f.queue;
    assert [k] + Tail(f.owned[t.owner]) == f.owned[t.owner];
    assert g.owned == f.owned;
    forall p | p in f.joined ensures |g.joined[p]| == |f.joined[p]| {
      MembersAreJoiners(f, k, p);
      if IsMember(t, p) {
        EraseCounts(f.joined[p], k);
      }
    }
  }

  /** The restoring loop undoes the expiring loop: everything but the joined lists comes back whatever they hold, and
      what it pushes to their front is what expiry took out of them. */
  lemma {:induction false} RestoreExpireAlike(s: Forum, b: Books, h: nat)
    requires Inv(b, h)
    requires ForumAlike(s, Expire(b.forum, h))
    ensures ForumAlike(Restore(s, ExpiredLog(b.forum, h)), b.forum)
    decreases |b.forum.queue|
  {
    hide Inv, RestoreFront, ForumAlike;
    var f := b.forum;
    if FrontIsOld(f, h) {
      var e := Expired(f.queue[0], f.topics[f.queue[0]]);
      var d := b.(forum := ExpireFront(f));
      var log := ExpiredLog(d.forum, h);
      ExpireFrontInv(b, h);
      RestoreExpireAlike(s, d, h);
      RestoreAppend(s, log, e);
      RestoreFrontAlike(Restore(s, log), b, h);
    }
  }

  lemma ExpireFrontCounts(b: Books, h: nat, p: Pubkey)
    requires Inv(b, h) && b.forum.queue != [] && b.forum.queue[0] in b.forum.topics && p in b.forum.joined
    ensures p in ExpireFront(b.forum).joined
    ensures var k := b.forum.queue[0];
            multiset(b.forum.joined[p])
            == multiset(if IsMember(b.forum.topics[k], p) then [k] else []) + multiset(ExpireFront(b.forum).joined[p])
  {
    hide IsMember, EraseFirst, Sound, JoinedOk, MembersOk;
    var k := b.forum.queue[0];
    MembersAreJoiners(b.forum, k, p);
    if IsMember(b.forum.topics[k], p) {
      EraseCounts(b.forum.joined[p], k);
    }
  }

  /** What expiry takes out of a joined list. */
  lemma {:induction false} ExpireCounts(b: Books, h: nat, p: Pubkey)
    requires Inv(b, h) && p in b.forum.joined
    ensures p in Expire(b.forum, h).joined
    ensures multiset(b.forum.joined[p])
            == multiset(Pushed(ExpiredLog(b.forum, h), p)) + multiset(Expire(b.forum, h).joined[p])
    decreases |b.forum.queue|
  {
    hide Inv, IsMember, Pushed, ExpireFront;
    var f := b.forum;
    if FrontIsOld(f, h) {
      var e := Expired(f.queue[0], f.topics[f.queue[0]]);
      var d := b.(forum := ExpireFront(f));
      ExpireFrontInv(b, h);
      ExpireFrontCounts(b, h, p);
      Shorter(f);
      ExpireCounts(d, h, p);
      PushedAppend(ExpiredLog(d.forum, h), e, p);
    } else {
      NothingPushed(p);
    }
  }

  lemma ExpireUnfold(f: Forum, h: nat)
    requires FrontIsOld(f, h)
    ensures Expire(f, h) == Expire(ExpireFront(f), h)
    ensures ExpiredLog(f, h) == ExpiredLog(ExpireFront(f), h) + [Expired(f.queue[0], f.topics[f.queue[0]])]
  {
    hide ExpireFront;
  }

  lemma NothingExpires(f: Forum, h: nat)
    requires !FrontIsOld(f, h)
    ensures Expire(f, h) == f && ExpiredLog(f, h) == []
  {
  }

  lemma Shorter(f: Forum)
    requires f.queue != [] && f.queue[0] in f.topics
    ensures |ExpireFront(f).queue| < |f.queue|
  {
  }

  lemma NothingPushed(p: Pubkey)
    ensures Pushed([], p) == []
  {
  }

  /** Restoring makes a joined list hold what it held before expiry exactly when it held what expiry had left in it. */
  lemma RestoredIff(s: Forum, b: Books, h: nat, p: Pubkey)
    requires Inv(b, h) && p in b.forum.joined && p in s.joined
    ensures p in Expire(b.forum, h).joined && p in Restore(s, ExpiredLog(b.forum, h)).joined
    ensures multiset(Restore(s, ExpiredLog(b.forum, h)).joined[p]) == multiset(b.forum.joined[p]) <==>
              multiset(s.joined[p]) == multiset(Expire(b.forum, h).joined[p])
  {
    hide Inv, Expire, ExpiredLog, Pushed;
    var log := ExpiredLog(b.forum, h);
    ExpireCounts(b, h, p);
    RestoredList(s, log, p);
    var m, x, y := multiset(Pushed(log, p)), multiset(s.joined[p]), multiset(Expire(b.forum, h).joined[p]);
    assert multiset(Restore(s, log).joined[p]) == m + x;
    assert m + x - m == x && m + y - m == y;
  }

  /** The restoring loop undoes the expiring loop, also on a forum whose joined lists were reordered. */
  lemma RestoreExpireSim(s: Forum, b: Books, h: nat)
    requires Inv(b, h)
    requires ForumSim(s, Expire(b.forum, h))
    ensures ForumSim(Restore(s, ExpiredLog(b.forum, h)), b.forum)
  {
    hide Sound, Expire, ExpiredLog, Restore, Permuted, MembersOk;
    RestoreExpireAlike(s, b, h);
    forall p | p in b.forum.joined
      ensures p in s.joined && p in Restore(s, ExpiredLog(b.forum, h)).joined
      ensures Permuted(Restore(s, ExpiredLog(b.forum, h)).joined[p], b.forum.joined[p])
    {
      ExpireCounts(b, h, p);
      RestoredIff(s, b, h, p);
      PermutedSame(s.joined[p], Expire(b.forum, h).joined[p]);
      assert JoinedListOk(b.forum, p);
      PermutedIff(Restore(s, ExpiredLog(b.forum, h)).joined[p], b.forum.joined[p]);
    }
  }
}
