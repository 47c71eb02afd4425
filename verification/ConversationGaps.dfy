/** Exactly which requests of other conversations keep a conversation from being found again, and runs in
    which characters are counted twice, a request is flagged for nothing, or nothing is counted. */
module ConversationGaps {
  import opened Wrappers
  import opened Measure
  import opened ConvLru
  import opened Conversation
  import opened ConversationRun

  /** Every entry stands for messages that belong under its key. */
  ghost predicate KeysFit(c: Cache<Key, Conv>)
  {
    forall k | k in c.entries :: KeyFits(k, c.entries[k].value)
  }

  ghost predicate KeyFits(k: Key, v: Conv)
  {
    v.count == |v.prefix| && Lead(v.prefix) != [] && KeyOf(v.prefix, k.consumer) == k
  }

  /** So it is in every cache that requests filled. */
  lemma ReachableKeysFit(s: Setup, h: seq<Request>)
    ensures KeysFit(ObserveAll(s, h))
  {
    hide ObserveAll;
    forall k | k in ObserveAll(s, h).entries
      ensures KeyFits(k, ObserveAll(s, h).entries[k].value)
    {
      var i := EntryIsARequest(s, h, k);
    }
  }

  // ---- One request that goes on from another ----

  /** Where a request's new messages are found to start. */
  function StartOf(s: Setup, c: Cache<Key, Conv>, x: Request): nat
  {
    Observe(c, s.max, s.ttl, x.msgs, x.consumer, x.now, s.resolve).1.newStart
  }

  /** The cache holds exactly o's messages under o's key when x asks, and x meets nothing before that. */
  ghost predicate Meets(s: Setup, c: Cache<Key, Conv>, o: Request, x: Request)
    requires Lead(o.msgs) != []
  {
    var k := KeyOf(o.msgs, o.consumer);
    && StillCached(c, s.ttl, k, x.now) && RemembersAs(c.entries[k].value, o.msgs)
    && (FullKey(x.msgs, x.consumer) != Some(k) ==> Missed(c, s.ttl, FullKey(x.msgs, x.consumer), x.now))
  }

  lemma StartOfFound(s: Setup, c: Cache<Key, Conv>, x: Request)
    ensures var found := Find(c, s.ttl, x.msgs, x.consumer, x.now).1;
      StartOf(s, c, x) ==
        if found.Some? && found.value.1.count <= |x.msgs| && x.msgs[..found.value.1.count] == found.value.1.prefix
        then found.value.1.count else 0
  {
    hide Find, Remember, CreatedIn, TotalChars;
  }

  /** What a request finds, in the order of its lookups. */
  lemma FindIs(s: Setup, c: Cache<Key, Conv>, x: Request)
    ensures var full, short := FullKey(x.msgs, x.consumer), ShortKey(x.msgs, x.consumer);
      Find(c, s.ttl, x.msgs, x.consumer, x.now).1 ==
        if full.Some? && StillCached(c, s.ttl, full.value, x.now) then Some((full.value, c.entries[full.value].value))
        else if short.Some? && StillCached(c, s.ttl, short.value, x.now)
        then Some((short.value, c.entries[short.value].value))
        else None
  {
    hide Lead;
  }

  /** The keys that an extension of a request looks under. */
  lemma ExtensionKeys(o: Request, x: Request)
    requires Lead(o.msgs) != [] && o.msgs <= x.msgs && x.consumer == o.consumer
    ensures var k := KeyOf(o.msgs, o.consumer);
      if k.Full? then FullKey(x.msgs, x.consumer) == Some(k) else ShortKey(x.msgs, x.consumer) == Some(k)
    ensures ShortKey(x.msgs, x.consumer) == Some(Short(o.consumer, Lead(o.msgs)[0]))
    ensures FullKey(x.msgs, x.consumer).Some? ==>
              FullKey(x.msgs, x.consumer).value.consumer == o.consumer &&
              FullKey(x.msgs, x.consumer).value.first == Lead(o.msgs)[0]
  {
    hide Lead;
    LeadStays(o.msgs, x.msgs);
    assert |Lead(x.msgs)| <= 2;
  }

  /** An extension of a request is found to start where that ended exactly when it meets it. */
  lemma StartsExactly(s: Setup, c: Cache<Key, Conv>, o: Request, x: Request)
    requires KeysFit(c) && Lead(o.msgs) != [] && o.msgs <= x.msgs && x.consumer == o.consumer
    ensures StartOf(s, c, x) == |o.msgs| <==> Meets(s, c, o, x)
  {
    ExtensionKeys(o, x);
    StartOfFound(s, c, x);
    FindIs(s, c, x);
    var k := KeyOf(o.msgs, o.consumer);
    var found := Find(c, s.ttl, x.msgs, x.consumer, x.now).1;
    hide Lead, Find, StartOf, FullKey, ShortKey;
    assert |o.msgs| > 0 by {
      LeadOfNothing(o.msgs);
    }
    if found.Some? {
      var v := found.value.1;
      assert KeyFits(found.value.0, v);
      assert found.value.0.consumer == o.consumer;
      if v.prefix == o.msgs {
        assert found.value.0 == k;
      } else if v.count <= |x.msgs| && x.msgs[..v.count] == v.prefix {
        assert x.msgs[..|o.msgs|] == o.msgs;
        assert v.count != |o.msgs|;
      }
    }
  }

  lemma LeadOfNothing(msgs: seq<Message>)
    ensures Lead(msgs) != [] ==> |msgs| > 0
  {
  }

  // ---- All extensions ----

  ghost predicate Extends(s: Setup, o: Request, x: Request)
  {
    x.consumer == o.consumer && o.msgs <= x.msgs && x.now - o.now <= s.ttl
  }

  /** Every extension of a request, within the time to live, is found to start where it ended. */
  ghost predicate GoesOn(s: Setup, c: Cache<Key, Conv>, o: Request)
  {
    forall x | Extends(s, o, x) :: StartOf(s, c, x) == |o.msgs|
  }

  /** The entry is the request's own or a later one of the same messages. */
  ghost predicate Stands(c: Cache<Key, Conv>, o: Request)
    requires Lead(o.msgs) != []
  {
    var k := KeyOf(o.msgs, o.consumer);
    k in c.entries && RemembersAs(c.entries[k].value, o.msgs) && c.entries[k].seen >= o.now
  }

  /** Under a short key: no conversation that opens alike is cached under a full one. */
  ghost predicate Unrivalled(c: Cache<Key, Conv>, o: Request)
    requires Lead(o.msgs) != []
  {
    KeyOf(o.msgs, o.consumer).Short? ==> forall k | k in c.entries :: !Rival(k, o)
  }

  ghost predicate Rival(k: Key, o: Request)
    requires Lead(o.msgs) != []
  {
    k.Full? && k.consumer == o.consumer && k.first == Lead(o.msgs)[0]
  }

  lemma {:induction false} LeadMembers(msgs: seq<Message>)
    ensures forall m | m in Lead(msgs) :: !IsSystem(m)
  {
    if msgs != [] {
      LeadMembers(msgs[..|msgs| - 1]);
    }
  }

  lemma StandingGoesOn(s: Setup, c: Cache<Key, Conv>, o: Request, x: Request)
    requires Lead(o.msgs) != [] && Stands(c, o) && Unrivalled(c, o) && Extends(s, o, x)
    ensures Meets(s, c, o, x)
  {
    hide Lead;
    ExtensionKeys(o, x);
  }

  /** An extension that runs into a rival. */
  lemma RivalStops(s: Setup, c: Cache<Key, Conv>, o: Request, k: Key)
    requires KeysFit(c) && Lead(o.msgs) != [] && KeyOf(o.msgs, o.consumer).Short?
    requires k in c.entries && Rival(k, o)
    ensures exists x :: Extends(s, o, x) && !Meets(s, c, o, x)
  {
    var v, seen := c.entries[k].value, c.entries[k].seen;
    assert KeyFits(k, v);
    LeadMembers(v.prefix);
    assert k.second == Lead(v.prefix)[1] && k.second in Lead(v.prefix);
    var x := Request(true, o.consumer, o.msgs + [k.second], (if seen <= o.now then seen else o.now) + s.ttl);
    assert x.msgs[..|o.msgs|] == o.msgs;
    assert Lead(x.msgs) == [Lead(o.msgs)[0], k.second];
    assert FullKey(x.msgs, x.consumer) == Some(k) && StillCached(c, s.ttl, k, x.now);
    assert Extends(s, o, x) && !Meets(s, c, o, x);
  }

  /** Every extension of a request is found to start where it ended exactly when its messages stand in the
      cache, no older than it, and under a short key no conversation that opens alike has a full one. */
  lemma GoesOnExactly(s: Setup, c: Cache<Key, Conv>, o: Request)
    requires KeysFit(c) && Lead(o.msgs) != []
    ensures GoesOn(s, c, o) <==> Stands(c, o) && Unrivalled(c, o)
  {
    hide KeysFit, StartOf, Meets, Lead, KeyOf, Rival;
    forall x | Extends(s, o, x)
      ensures StartOf(s, c, x) == |o.msgs| <==> Meets(s, c, o, x)
    {
      StartsExactly(s, c, o, x);
    }
    if Stands(c, o) && Unrivalled(c, o) {
      forall x | Extends(s, o, x)
        ensures StartOf(s, c, x) == |o.msgs|
      {
        StandingGoesOn(s, c, o, x);
      }
    } else if !Stands(c, o) {
      var x := Request(true, o.consumer, o.msgs, o.now + s.ttl);
      assert Extends(s, o, x);
      LastMoment(s, c, o, x);
    } else {
      var k :| k in c.entries && Rival(k, o);
      RivalStops(s, c, o, k);
    }
  }

  /** At the end of the time to live only what stands is met. */
  lemma LastMoment(s: Setup, c: Cache<Key, Conv>, o: Request, x: Request)
    requires Lead(o.msgs) != [] && x == Request(true, o.consumer, o.msgs, o.now + s.ttl)
    ensures Meets(s, c, o, x) ==> Stands(c, o)
  {
    hide Lead;
  }

  // ---- One request of another conversation ----

  /** The request leaves the conversation to be found: it does not look under its key and there is room for
      both, or it asks with exactly its messages, no earlier. */
  ghost predicate LeavesAlone(s: Setup, o: Request, f: Request)
    requires Lead(o.msgs) != []
  {
    if !LooksUnder(f, KeyOf(o.msgs, o.consumer)) then Lead(f.msgs) == [] || s.max > 1
    else f.consumer == o.consumer && f.msgs == o.msgs && f.now >= o.now
  }

  function After(s: Setup, c: Cache<Key, Conv>, r: Request): Cache<Key, Conv>
  {
    Observe(c, s.max, s.ttl, r.msgs, r.consumer, r.now, s.resolve).0
  }

  lemma NoLeadNoChange(s: Setup, c: Cache<Key, Conv>, f: Request)
    requires Lead(f.msgs) == []
    ensures After(s, c, f) == c
  {
  }

  /** A request that does not look under the key. */
  lemma ElsewhereLeaves(s: Setup, c: Cache<Key, Conv>, o: Request, f: Request)
    requires Consistent(c, s.max) && Lead(o.msgs) != [] && Lead(f.msgs) != [] && Unrivalled(c, o) && Stands(c, o)
    requires !LooksUnder(f, KeyOf(o.msgs, o.consumer))
    requires Holds(c, KeyOf(o.msgs, o.consumer), EntryOf(o), {})
    ensures Stands(After(s, c, f), o) && Unrivalled(After(s, c, f), o) <==> s.max > 1
  {
    hide Consistent, Observe, LooksUnder, Rival, Holds, Lead, KeyOf, EntryOf;
    var k, own := KeyOf(o.msgs, o.consumer), KeyOf(f.msgs, f.consumer);
    OwnIsLookedUp(f);
    ObserveAdds(s, c, f);
    if s.max > 1 {
      MoreOthers(c, k, EntryOf(o), own);
      OtherHolds(s, c, f, k, EntryOf(o), {own});
      HeldStands(After(s, c, f), o, {own});
      NoNewRival(o, f);
    } else {
      SomeRoom(c, s.max, k);
      OwnHolds(s, c, f, {});
      HeldIsEntry(After(s, c, f), own, EntryOf(f));
      if k in After(s, c, f).entries {
        OnlyRoomForOne(After(s, c, f), k, own);
      }
    }
  }

  lemma MoreOthers(c: Cache<Key, Conv>, k: Key, e: Entry<Conv>, own: Key)
    requires Holds(c, k, e, {})
    ensures Holds(c, k, e, {own})
  {
    var p :| InFront(c.order, k, p, {});
    assert InFront(c.order, k, p, {own});
  }

  lemma HeldIsEntry(c: Cache<Key, Conv>, k: Key, e: Entry<Conv>)
    requires Holds(c, k, e, {})
    ensures k in c.entries && c.entries[k] == e
  {
  }

  lemma HeldStands(c: Cache<Key, Conv>, o: Request, others: set<Key>)
    requires Lead(o.msgs) != [] && Holds(c, KeyOf(o.msgs, o.consumer), EntryOf(o), others)
    ensures Stands(c, o)
  {
    hide Lead;
  }

  lemma SomeRoom(c: Cache<Key, Conv>, max: nat, k: Key)
    requires Consistent(c, max) && k in c.entries
    ensures max > 0
  {
    assert k in c.order;
  }

  lemma OnlyRoomForOne(c: Cache<Key, Conv>, a: Key, b: Key)
    requires Consistent(c, 1) && a in c.entries && b in c.entries
    ensures a == b
  {
    assert a in c.order && b in c.order;
  }

  lemma NoNewRival(o: Request, f: Request)
    requires Lead(o.msgs) != [] && Lead(f.msgs) != [] && !LooksUnder(f, KeyOf(o.msgs, o.consumer))
    ensures KeyOf(o.msgs, o.consumer).Short? ==> !Rival(KeyOf(f.msgs, f.consumer), o)
  {
    hide Lead;
  }

  /** A request that does look under the key. */
  lemma LookingUnder(s: Setup, c: Cache<Key, Conv>, o: Request, f: Request)
    requires Consistent(c, s.max) && Lead(o.msgs) != [] && Unrivalled(c, o) && Stands(c, o)
    requires LooksUnder(f, KeyOf(o.msgs, o.consumer)) && Lead(f.msgs) != []
    ensures Stands(After(s, c, f), o) && Unrivalled(After(s, c, f), o) <==>
            f.consumer == o.consumer && f.msgs == o.msgs && f.now >= o.now
  {
    hide Consistent, Observe, Holds, Lead;
    var k, own := KeyOf(o.msgs, o.consumer), KeyOf(f.msgs, f.consumer);
    SomeRoom(c, s.max, k);
    ObserveAdds(s, c, f);
    OwnHolds(s, c, f, {});
    HeldIsEntry(After(s, c, f), own, EntryOf(f));
    hide Observe, LooksUnder;
    if own != k {
      AlikeIsRival(o, f);
    }
    LookerConsumer(o, f);
  }

  lemma AlikeIsRival(o: Request, f: Request)
    requires Lead(o.msgs) != [] && Lead(f.msgs) != [] && LooksUnder(f, KeyOf(o.msgs, o.consumer))
    requires KeyOf(f.msgs, f.consumer) != KeyOf(o.msgs, o.consumer)
    ensures KeyOf(o.msgs, o.consumer).Short? && Rival(KeyOf(f.msgs, f.consumer), o)
    ensures !(f.consumer == o.consumer && f.msgs == o.msgs)
  {
    hide Lead;
    assert |Lead(f.msgs)| <= 2 && |Lead(o.msgs)| <= 2;
  }

  lemma LookerConsumer(o: Request, f: Request)
    requires Lead(o.msgs) != [] && LooksUnder(f, KeyOf(o.msgs, o.consumer))
    ensures f.consumer == o.consumer
  {
    hide Lead;
  }

  lemma LookersLead(o: Request, f: Request)
    requires Lead(o.msgs) != [] && LooksUnder(f, KeyOf(o.msgs, o.consumer))
    ensures Lead(f.msgs) != []
  {
    hide Lead;
  }

  /** After any history and a request of ours whose extensions would be found, one more request, of whatever
      conversation, leaves them all to be found exactly when it does not look under our key and there is
      room for two, or asks with exactly our messages. */
  lemma OneRequestBetween(s: Setup, g: seq<Request>, o: Request, f: Request)
    requires Lead(o.msgs) != [] && GoesOn(s, ObserveAll(s, g + [o]), o)
    ensures GoesOn(s, ObserveAll(s, g + [o] + [f]), o) <==> LeavesAlone(s, o, f)
  {
    hide Consistent, Lead, KeyOf, EntryOf, LooksUnder, Stands, Unrivalled, GoesOn, KeysFit, Holds, Observe, ObserveAll;
    var h, h' := g + [o], g + [o] + [f];
    var c := ObserveAll(s, h);
    Runs(s, g, o);
    Runs(s, h, f);
    AllConsistent(s, g);
    AllConsistent(s, h);
    ReachableKeysFit(s, h);
    ReachableKeysFit(s, h');
    GoesOnExactly(s, c, o);
    GoesOnExactly(s, ObserveAll(s, h'), o);
    if !LooksUnder(f, KeyOf(o.msgs, o.consumer)) {
      if Lead(f.msgs) == [] {
        NoLeadNoChange(s, c, f);
      } else {
        StandsHasRoom(s, c, o);
        OwnHolds(s, ObserveAll(s, g), o, {});
        ElsewhereLeaves(s, c, o, f);
      }
    } else {
      LookersLead(o, f);
      LookingUnder(s, c, o, f);
    }
  }

  lemma StandsHasRoom(s: Setup, c: Cache<Key, Conv>, o: Request)
    requires Consistent(c, s.max) && Lead(o.msgs) != [] && Stands(c, o)
    ensures s.max > 0
  {
    hide Consistent, Lead;
    SomeRoom(c, s.max, KeyOf(o.msgs, o.consumer));
  }

  lemma Runs(s: Setup, g: seq<Request>, r: Request)
    ensures ObserveAll(s, g + [r]) == After(s, ObserveAll(s, g), r)
  {
    assert (g + [r])[..|g|] == g;
  }

  // ---- Runs that do not conserve ----

  predicate Speaks(m: Message)
  {
    !IsSystem(m)
  }

  function Ask(ours: bool, consumer: string, msgs: seq<Message>): Request
  {
    Request(ours, consumer, msgs, 0)
  }

  lemma LeadOfOne(u: Message)
    requires Speaks(u)
    ensures Lead([u]) == [u]
  {
    assert [u][..0] == [];
  }

  lemma LeadOfTwo(u: Message, a: Message)
    requires Speaks(u) && Speaks(a)
    ensures Lead([u, a]) == [u, a]
  {
    LeadOfOne(u);
    assert [u, a][..1] == [u];
  }

  lemma LeadBehindSystem(sys: Message, u: Message)
    requires Speaks(u) && IsSystem(sys)
    ensures Lead([sys, u]) == [u]
  {
    assert [sys, u][..1] == [sys] && [sys][..0] == [];
    assert Lead([sys]) == [];
  }

  /** The entries after a request, when nothing has expired and there is room. */
  function Next(entries: map<Key, Entry<Conv>>, r: Request): map<Key, Entry<Conv>>
    requires Lead(r.msgs) != []
  {
    var own, short := KeyOf(r.msgs, r.consumer), Short(r.consumer, Lead(r.msgs)[0]);
    if own !in entries && short in entries then (entries - {short})[own := EntryOf(r)] else entries[own := EntryOf(r)]
  }

  ghost predicate AllNew(s: Setup, entries: map<Key, Entry<Conv>>)
  {
    s.ttl >= 0 && forall k | k in entries :: entries[k].seen == 0
  }

  lemma FindKeeps(s: Setup, c: Cache<Key, Conv>, r: Request)
    requires AllNew(s, c.entries) && r.now == 0
    ensures Find(c, s.ttl, r.msgs, r.consumer, r.now).0 == c
  {
    hide Lead, Drop;
  }

  lemma PutWithRoom(c: Cache<Key, Conv>, max: nat, k: Key, v: Conv, now: int)
    requires Consistent(c, max) && |c.order| < max
    ensures OnPut(c, max, k, v, now).entries == c.entries[k := Entry(v, now)]
  {
    hide OnPut;
    PutIs(c, max, k, v, now);
  }

  lemma AskStep(s: Setup, c: Cache<Key, Conv>, r: Request)
    requires Consistent(c, s.max) && Lead(r.msgs) != [] && r.now == 0 && AllNew(s, c.entries) && |c.order| < s.max
    ensures After(s, c, r).entries == Next(c.entries, r)
  {
    hide Consistent, OnPut, Judge, TotalChars, CreatedIn, Lead, AllNew, Find, Without;
    FindKeeps(s, c, r);
    FindIs(s, c, r);
    NothingExpired(s, c);
    assert |Lead(r.msgs)| <= 2;
    PutWithRoom(c, s.max, KeyOf(r.msgs, r.consumer), EntryOf(r).value, r.now);
  }

  lemma NothingExpired(s: Setup, c: Cache<Key, Conv>)
    requires AllNew(s, c.entries)
    ensures forall k :: StillCached(c, s.ttl, k, 0) <==> k in c.entries
  {
  }

  lemma OrderSizeIs(c: Cache<Key, Conv>, max: nat)
    requires Consistent(c, max)
    ensures |c.order| == |c.entries|
  {
    OrderSize(c.entries, c.order);
  }

  /** A run of requests at time 0, one entry map after the other. */
  lemma AskRun(s: Setup, g: seq<Request>, r: Request, h: seq<Request>)
    requires Lead(r.msgs) != [] && r.now == 0 && AllNew(s, ObserveAll(s, g).entries) && h == g + [r]
    requires |ObserveAll(s, g).entries| < s.max
    ensures ObserveAll(s, h).entries == Next(ObserveAll(s, g).entries, r)
    ensures AllNew(s, ObserveAll(s, h).entries)
  {
    hide ObserveAll, Observe, Consistent, Lead, KeyOf;
    AllConsistent(s, g);
    OrderSizeIs(ObserveAll(s, g), s.max);
    Runs(s, g, r);
    AskStep(s, ObserveAll(s, g), r);
  }

  /** The conversation that a request finds has other messages. */
  predicate Flagged(s: Setup, c: Cache<Key, Conv>, r: Request)
  {
    Observe(c, s.max, s.ttl, r.msgs, r.consumer, r.now, s.resolve).1.suspect
  }

  /** What one more request adds to the account. */
  lemma Accounts(s: Setup, g: seq<Request>, r: Request, h: seq<Request>)
    requires h == g + [r]
    ensures StartOf(s, ObserveAll(s, g), r) <= |r.msgs|
    ensures CreatedSum(s, h) == CreatedSum(s, g) +
      if r.ours then TotalChars(r.msgs, |r.msgs|) - TotalChars(r.msgs, StartOf(s, ObserveAll(s, g), r)) else 0
    ensures SuspectCount(s, h) == SuspectCount(s, g) + if r.ours && Flagged(s, ObserveAll(s, g), r) then 1 else 0
  {
    hide Find, Remember, CreatedChars, CreatedIn, TotalChars, ObserveAll;
    assert h[..|g|] == g;
    CreatedIsTheRest(r.msgs, StartOf(s, ObserveAll(s, g), r), |r.msgs|, s.resolve);
  }

  lemma NothingFound(s: Setup, c: Cache<Key, Conv>, r: Request)
    requires FullKey(r.msgs, r.consumer).Some? ==> FullKey(r.msgs, r.consumer).value !in c.entries
    requires ShortKey(r.msgs, r.consumer).Some? ==> ShortKey(r.msgs, r.consumer).value !in c.entries
    ensures StartOf(s, c, r) == 0 && !Flagged(s, c, r)
  {
    hide Lead, Remember, CreatedIn, TotalChars;
  }

  lemma SomethingFound(s: Setup, c: Cache<Key, Conv>, r: Request, k: Key)
    requires s.ttl >= 0 && r.now == 0 && k in c.entries && c.entries[k].seen == 0
    requires FullKey(r.msgs, r.consumer) == Some(k) ||
             (ShortKey(r.msgs, r.consumer) == Some(k) &&
              (FullKey(r.msgs, r.consumer).Some? ==> FullKey(r.msgs, r.consumer).value !in c.entries))
    ensures var v := c.entries[k].value; var fits := v.count <= |r.msgs| && r.msgs[..v.count] == v.prefix;
      StartOf(s, c, r) == (if fits then v.count else 0) && (Flagged(s, c, r) <==> !fits)
  {
    hide Lead, Remember, CreatedIn, TotalChars;
  }

  /** The keys and the entry of a request of one message, of one behind a system message, and of two. */
  lemma AsksFor(ours: bool, consumer: string, msgs: seq<Message>)
    ensures var r := Ask(ours, consumer, msgs);
      && (|Lead(msgs)| == 1 ==> FullKey(msgs, consumer) == None &&
                                KeyOf(msgs, consumer) == Short(consumer, Lead(msgs)[0]))
      && (|Lead(msgs)| == 2 ==> FullKey(msgs, consumer) == Some(KeyOf(msgs, consumer)) &&
                                KeyOf(msgs, consumer) == Full(consumer, Lead(msgs)[0], Lead(msgs)[1]))
      && (Lead(msgs) != [] ==> ShortKey(msgs, consumer) == Some(Short(consumer, Lead(msgs)[0])) &&
                               EntryOf(r).seen == 0 && RemembersAs(EntryOf(r).value, msgs))
  {
    hide Lead;
  }

  /** Another conversation that opens alike moves our entry to its own key: our next request counts the
      opening again. No request is suspect. */
  lemma CountedTwice(s: Setup, consumer: string, u: Message, a: Message, b: Message)
    requires Speaks(u) && Speaks(a) && Speaks(b) && a != b && s.max > 1 && s.ttl >= 0
    ensures var h := [Ask(true, consumer, [u]), Ask(false, consumer, [u]), Ask(false, consumer, [u, b]),
                      Ask(true, consumer, [u, a])];
      SuspectCount(s, h) == 0 && CreatedSum(s, h) == TotalChars([u, a], 2) + TotalChars([u], 1)
  {
    var r1, r2 := Ask(true, consumer, [u]), Ask(false, consumer, [u]);
    var r3, r4 := Ask(false, consumer, [u, b]), Ask(true, consumer, [u, a]);
    LeadOfOne(u);
    LeadOfTwo(u, a);
    LeadOfTwo(u, b);
    AsksFor(true, consumer, [u]);
    AsksFor(false, consumer, [u]);
    AsksFor(false, consumer, [u, b]);
    AsksFor(true, consumer, [u, a]);
    hide ObserveAll, Lead, CreatedSum, SuspectCount, TotalChars, StartOf, Flagged, FullKey, ShortKey, KeyOf, EntryOf,
         RemembersAs, Speaks;
    StartsEmpty(s);
    AskRun(s, [], r1, [r1]);
    AskRun(s, [r1], r2, [r1, r2]);
    AskRun(s, [r1, r2], r3, [r1, r2, r3]);
    NothingFound(s, ObserveAll(s, []), r1);
    NothingFound(s, ObserveAll(s, [r1, r2, r3]), r4);
    hide *;
    Accounts(s, [], r1, [r1]);
    Accounts(s, [r1], r2, [r1, r2]);
    Accounts(s, [r1, r2], r3, [r1, r2, r3]);
    Accounts(s, [r1, r2, r3], r4, [r1, r2, r3, r4]);
    NoChars([u]);
    NoChars([u, a]);
  }

  lemma StartsEmpty(s: Setup)
    ensures ObserveAll(s, []) == Cache(map[], []) && CreatedSum(s, []) == 0 && SuspectCount(s, []) == 0
  {
  }

  lemma NoChars(msgs: seq<Message>)
    ensures TotalChars(msgs, 0) == 0
  {
  }

  /** Another conversation that differs only in its system message takes over the short key: our next
      request is suspect although it extends ours. */
  lemma FlaggedUnedited(s: Setup, consumer: string, sys: Message, u: Message, a: Message)
    requires IsSystem(sys) && Speaks(u) && Speaks(a) && s.max > 1 && s.ttl >= 0
    ensures var h := [Ask(true, consumer, [u]), Ask(false, consumer, [sys, u]), Ask(true, consumer, [u, a])];
      SuspectCount(s, h) == 1
  {
    var r1, r2, r3 := Ask(true, consumer, [u]), Ask(false, consumer, [sys, u]), Ask(true, consumer, [u, a]);
    LeadOfOne(u);
    LeadOfTwo(u, a);
    LeadBehindSystem(sys, u);
    AsksFor(true, consumer, [u]);
    AsksFor(false, consumer, [sys, u]);
    AsksFor(true, consumer, [u, a]);
    assert [u, a][..2] == [u, a] && [u, a][0] != [sys, u][0];
    hide ObserveAll, Lead, CreatedSum, SuspectCount, TotalChars, StartOf, Flagged, FullKey, ShortKey, KeyOf, EntryOf,
         Speaks, IsSystem;
    StartsEmpty(s);
    AskRun(s, [], r1, [r1]);
    AskRun(s, [r1], r2, [r1, r2]);
    NothingFound(s, ObserveAll(s, []), r1);
    SomethingFound(s, ObserveAll(s, [r1, r2]), r3, Short(consumer, u));
    hide *;
    Accounts(s, [], r1, [r1]);
    Accounts(s, [r1], r2, [r1, r2]);
    Accounts(s, [r1, r2], r3, [r1, r2, r3]);
  }

  /** Another conversation that had the same two messages before takes ours for its own: the second message
      is never counted. */
  lemma NeverCounted(s: Setup, consumer: string, u: Message, a: Message)
    requires Speaks(u) && Speaks(a) && s.max > 1 && s.ttl >= 0
    ensures var h := [Ask(false, consumer, [u, a]), Ask(true, consumer, [u]), Ask(true, consumer, [u, a])];
      SuspectCount(s, h) == 0 && CreatedSum(s, h) == TotalChars([u], 1)
  {
    var r1, r2, r3 := Ask(false, consumer, [u, a]), Ask(true, consumer, [u]), Ask(true, consumer, [u, a]);
    LeadOfOne(u);
    LeadOfTwo(u, a);
    AsksFor(false, consumer, [u, a]);
    AsksFor(true, consumer, [u]);
    AsksFor(true, consumer, [u, a]);
    assert [u, a][..2] == [u, a];
    hide ObserveAll, Lead, CreatedSum, SuspectCount, TotalChars, StartOf, Flagged, FullKey, ShortKey, KeyOf, EntryOf,
         Speaks, IsSystem;
    StartsEmpty(s);
    AskRun(s, [], r1, [r1]);
    AskRun(s, [r1], r2, [r1, r2]);
    NothingFound(s, ObserveAll(s, [r1]), r2);
    SomethingFound(s, ObserveAll(s, [r1, r2]), r3, Full(consumer, u, a));
    hide *;
    Accounts(s, [], r1, [r1]);
    Accounts(s, [r1], r2, [r1, r2]);
    Accounts(s, [r1, r2], r3, [r1, r2, r3]);
    NoChars([u]);
  }
}
