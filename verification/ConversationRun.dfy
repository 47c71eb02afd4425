/** Conservation over a whole conversation: what its requests are found to create adds up to what the last
    of them holds, while other requests leave its entry alone. */
module ConversationRun {
  import opened Wrappers
  import opened Measure
  import opened ConvLru
  import opened Conversation

  /** A request of the conversation under study, or of any other. */
  datatype Request = Request(ours: bool, consumer: string, msgs: seq<Message>, now: int)

  /** The cache's limits and the tool name resolver. */
  datatype Setup = Setup(max: nat, ttl: int, resolve: Resolver)

  function ObserveAll(s: Setup, h: seq<Request>): Cache<Key, Conv>
  {
    if h == [] then Cache(map[], []) else
      var r := h[|h| - 1];
      Observe(ObserveAll(s, h[..|h| - 1]), s.max, s.ttl, r.msgs, r.consumer, r.now, s.resolve).0
  }

  function FindingOf(s: Setup, h: seq<Request>): Finding
    requires h != []
  {
    var r := h[|h| - 1];
    Observe(ObserveAll(s, h[..|h| - 1]), s.max, s.ttl, r.msgs, r.consumer, r.now, s.resolve).1
  }

  /** Created characters summed over the conversation's requests. */
  ghost function CreatedSum(s: Setup, h: seq<Request>): nat
  {
    if h == [] then 0
    else CreatedSum(s, h[..|h| - 1]) + if h[|h| - 1].ours then CreatedChars(FindingOf(s, h).created) else 0
  }

  /** Suspect requests of the conversation. */
  function SuspectCount(s: Setup, h: seq<Request>): nat
  {
    if h == [] then 0
    else SuspectCount(s, h[..|h| - 1]) + if h[|h| - 1].ours && FindingOf(s, h).suspect then 1 else 0
  }

  /** The messages of the conversation's latest request. */
  function Latest(h: seq<Request>): Option<seq<Message>>
  {
    if h == [] then None
    else if h[|h| - 1].ours then Some(h[|h| - 1].msgs)
    else Latest(h[..|h| - 1])
  }

  /** The key a request is remembered under. */
  function KeyOf(msgs: seq<Message>, consumer: string): Key
    requires Lead(msgs) != []
  {
    if |Lead(msgs)| == 2 then Full(consumer, Lead(msgs)[0], Lead(msgs)[1]) else Short(consumer, Lead(msgs)[0])
  }

  /** The request looks for a conversation under the key. */
  predicate LooksUnder(r: Request, k: Key)
  {
    FullKey(r.msgs, r.consumer) == Some(k) || ShortKey(r.msgs, r.consumer) == Some(k)
  }

  /** The remembered request is still cached and unexpired. */
  predicate StillCached(c: Cache<Key, Conv>, ttl: int, k: Key, now: int)
  {
    k in c.entries && now - c.entries[k].seen <= ttl
  }

  predicate Missed(c: Cache<Key, Conv>, ttl: int, k: Option<Key>, now: int)
  {
    k.Some? ==> !StillCached(c, ttl, k.value, now)
  }

  /** What a request of the conversation finds: nothing when it is the first; else it extends the latest one,
      which the cache has neither evicted nor let expire, and no other one under a key of its own. */
  predicate FindsOurs(c: Cache<Key, Conv>, ttl: int, latest: Option<seq<Message>>, r: Request)
  {
    match latest
    case None =>
      Missed(c, ttl, FullKey(r.msgs, r.consumer), r.now) && Missed(c, ttl, ShortKey(r.msgs, r.consumer), r.now)
    case Some(msgs) =>
      && Lead(msgs) != [] && msgs <= r.msgs
      && StillCached(c, ttl, KeyOf(msgs, r.consumer), r.now)
      && (FullKey(r.msgs, r.consumer) != Some(KeyOf(msgs, r.consumer)) ==>
            Missed(c, ttl, FullKey(r.msgs, r.consumer), r.now))
  }

  /** The next request may follow a history: one of the conversation finds it in the cache, and any other is
      remembered under another key. */
  ghost predicate MayFollow(s: Setup, consumer: string, g: seq<Request>, r: Request)
  {
    if r.ours then r.consumer == consumer && Lead(r.msgs) != [] && FindsOurs(ObserveAll(s, g), s.ttl, Latest(g), r)
    else Latest(g).Some? && Lead(Latest(g).value) != [] && Lead(r.msgs) != [] ==>
           KeyOf(r.msgs, r.consumer) != KeyOf(Latest(g).value, consumer)
  }

  ghost predicate Uninterrupted(s: Setup, consumer: string, h: seq<Request>)
  {
    h == [] || (Uninterrupted(s, consumer, h[..|h| - 1]) && MayFollow(s, consumer, h[..|h| - 1], h[|h| - 1]))
  }

  /** An entry under the conversation's key is that of its latest request. */
  ghost predicate Remembers(c: Cache<Key, Conv>, consumer: string, latest: Option<seq<Message>>)
  {
    latest.Some? ==>
      Lead(latest.value) != [] &&
      (KeyOf(latest.value, consumer) in c.entries ==>
         RemembersAs(c.entries[KeyOf(latest.value, consumer)].value, latest.value))
  }

  ghost predicate RemembersAs(v: Conv, msgs: seq<Message>)
  {
    v.count == |msgs| && v.prefix == msgs
  }

  /** Apart from k, the entries of c' are entries of c. */
  ghost predicate OnlyAdds(c: Cache<Key, Conv>, c': Cache<Key, Conv>, k: Key)
  {
    forall x | x in c'.entries && x != k :: x in c.entries && c'.entries[x] == c.entries[x]
  }

  /** The entry a request leaves. */
  function EntryOf(r: Request): Entry<Conv>
    requires Lead(r.msgs) != []
  {
    Entry(Conv(|r.msgs|, TotalChars(r.msgs, |r.msgs|), r.msgs, KeyOf(r.msgs, r.consumer).Short?), r.now)
  }

  /** The entries of c' are entries of c and, under the request's own key, what the request leaves. */
  ghost predicate Adds(c: Cache<Key, Conv>, c': Cache<Key, Conv>, r: Request)
  {
    forall x | x in c'.entries ::
      if Lead(r.msgs) != [] && x == KeyOf(r.msgs, r.consumer) then c'.entries[x] == EntryOf(r)
      else x in c.entries && c'.entries[x] == c.entries[x]
  }

  lemma GetRemoves(c: Cache<Key, Conv>, ttl: int, k: Key, now: int, max: nat)
    requires Consistent(c, max)
    ensures var c' := OnGet(c, ttl, k, now).0;
      Consistent(c', max) && forall x | x in c'.entries :: x in c.entries && c'.entries[x] == c.entries[x]
  {
    hide Consistent;
    DropConsistent(c, max, k);
  }

  lemma PutAdds(c: Cache<Key, Conv>, max: nat, k: Key, v: Conv, now: int)
    requires Consistent(c, max)
    ensures var c' := OnPut(c, max, k, v, now);
      && Consistent(c', max)
      && OnlyAdds(c, c', k)
      && (k in c'.entries ==> c'.entries[k] == Entry(v, now))
  {
    hide Consistent, OnPut;
    PutConsistent(c, max, k, v, now);
    PutIs(c, max, k, v, now);
  }

  lemma FindRemoves(s: Setup, c: Cache<Key, Conv>, r: Request)
    requires Consistent(c, s.max)
    ensures var c1 := Find(c, s.ttl, r.msgs, r.consumer, r.now).0;
      Consistent(c1, s.max) && forall x | x in c1.entries :: x in c.entries && c1.entries[x] == c.entries[x]
  {
    hide Consistent, OnGet, Lead;
    var full, short := FullKey(r.msgs, r.consumer), ShortKey(r.msgs, r.consumer);
    var c1 := c;
    if full.Some? {
      GetRemoves(c, s.ttl, full.value, r.now, s.max);
      c1 := OnGet(c, s.ttl, full.value, r.now).0;
    }
    if short.Some? {
      GetRemoves(c1, s.ttl, short.value, r.now, s.max);
    }
  }

  /** One request leaves its own entry and otherwise only removes. */
  lemma ObserveAdds(s: Setup, c: Cache<Key, Conv>, r: Request)
    requires Consistent(c, s.max)
    ensures var c' := Observe(c, s.max, s.ttl, r.msgs, r.consumer, r.now, s.resolve).0;
      Consistent(c', s.max) && Adds(c, c', r)
  {
    hide Consistent, OnGet, OnPut, Lead, Judge, CreatedIn, TotalChars;
    FindRemoves(s, c, r);
    var (c1, found) := Find(c, s.ttl, r.msgs, r.consumer, r.now);
    assert |Lead(r.msgs)| <= 2;
    if Lead(r.msgs) != [] {
      var k, e := KeyOf(r.msgs, r.consumer), EntryOf(r);
      PutAdds(c1, s.max, k, e.value, r.now);
      if found.Some? {
        DropConsistent(OnPut(c1, s.max, k, e.value, r.now), s.max, found.value.0);
      }
    }
  }

  /** A request that is remembered under another key does not change what is remembered of ours. */
  lemma OtherKeeps(s: Setup, c: Cache<Key, Conv>, consumer: string, latest: Option<seq<Message>>, r: Request)
    requires Consistent(c, s.max) && Remembers(c, consumer, latest)
    requires latest.Some? && Lead(r.msgs) != [] ==> KeyOf(r.msgs, r.consumer) != KeyOf(latest.value, consumer)
    ensures var c' := Observe(c, s.max, s.ttl, r.msgs, r.consumer, r.now, s.resolve).0;
      Consistent(c', s.max) && Remembers(c', consumer, latest)
  {
    hide Consistent, RemembersAs, Observe, Lead, KeyOf, EntryOf;
    ObserveAdds(s, c, r);
  }

  ghost predicate FoundLatest(found: Option<(Key, Conv)>, consumer: string, latest: seq<Message>)
  {
    found.Some? && Lead(latest) != [] && found.value.0 == KeyOf(latest, consumer) &&
    RemembersAs(found.value.1, latest)
  }

  /** A request of ours finds the latest one, or nothing when it is the first. */
  lemma OursFinds(s: Setup, c: Cache<Key, Conv>, latest: Option<seq<Message>>, r: Request)
    requires Remembers(c, r.consumer, latest) && Lead(r.msgs) != [] && FindsOurs(c, s.ttl, latest, r)
    ensures var found := Find(c, s.ttl, r.msgs, r.consumer, r.now).1;
      if latest.Some? then FoundLatest(found, r.consumer, latest.value) else found.None?
  {
    hide Lead, RemembersAs;
    if latest.Some? {
      LeadStays(latest.value, r.msgs);
      assert |Lead(r.msgs)| <= 2;
      if |Lead(latest.value)| == 2 {
        assert Lead(r.msgs) == Lead(latest.value);
      }
    }
  }

  /** After it, the cache holds the request itself under its key, and nothing under the key that it moved
      from. */
  lemma OursRemembered(s: Setup, c: Cache<Key, Conv>, latest: Option<seq<Message>>, r: Request)
    requires Consistent(c, s.max) && Remembers(c, r.consumer, latest) && Lead(r.msgs) != []
    requires FindsOurs(c, s.ttl, latest, r)
    ensures var c' := Observe(c, s.max, s.ttl, r.msgs, r.consumer, r.now, s.resolve).0;
      && Consistent(c', s.max) && Remembers(c', r.consumer, Some(r.msgs))
      && (latest.Some? && KeyOf(latest.value, r.consumer) != KeyOf(r.msgs, r.consumer) ==>
            KeyOf(latest.value, r.consumer) !in c'.entries)
  {
    OursExtends(c, s.ttl, latest, r);
    hide Consistent, Lead, FindsOurs, Find, OnPut, Judge, TotalChars, CreatedIn, Drop;
    OursFinds(s, c, latest, r);
    ObserveAdds(s, c, r);
    var (c1, found) := Find(c, s.ttl, r.msgs, r.consumer, r.now);
    assert |Lead(r.msgs)| <= 2;
    if latest.Some? && KeyOf(latest.value, r.consumer) != KeyOf(r.msgs, r.consumer) {
      LeadStays(latest.value, r.msgs);
      var c2 := OnPut(c1, s.max, KeyOf(r.msgs, r.consumer), EntryOf(r).value, r.now);
      DeletedIsGone(c2, found.value.0);
    }
  }

  lemma DeletedIsGone(c: Cache<Key, Conv>, k: Key)
    ensures k !in OnDel(c, k).entries
  {
  }

  /** Over every run in which each request of a conversation finds the one before, mixed with any requests
      that are remembered under other keys: no request of it is suspect, and the created characters add up
      to the total of its latest request. */
  lemma {:induction false} CreationIsConserved(s: Setup, consumer: string, h: seq<Request>)
    requires Uninterrupted(s, consumer, h)
    ensures Consistent(ObserveAll(s, h), s.max)
    ensures Remembers(ObserveAll(s, h), consumer, Latest(h))
    ensures SuspectCount(s, h) == 0
    ensures CreatedSum(s, h) == if Latest(h).Some? then TotalChars(Latest(h).value, |Latest(h).value|) else 0
  {
    if h != [] {
      hide Consistent, Remembers, FindsOurs, Find, Remember, TotalChars, CreatedChars, CreatedIn, KeyOf, Lead;
      var g, r := h[..|h| - 1], h[|h| - 1];
      var c := ObserveAll(s, g);
      CreationIsConserved(s, consumer, g);
      LatestTracked(c, consumer, Latest(g));
      if !r.ours {
        OtherKeeps(s, c, consumer, Latest(g), r);
      } else {
        OursRemembered(s, c, Latest(g), r);
        OurFinding(s, h);
      }
    }
  }

  /** A request that finds ours starts where the latest one ended. */
  lemma OurFinding(s: Setup, h: seq<Request>)
    requires h != [] && Lead(h[|h| - 1].msgs) != []
    requires var g, r := h[..|h| - 1], h[|h| - 1];
      Remembers(ObserveAll(s, g), r.consumer, Latest(g)) && FindsOurs(ObserveAll(s, g), s.ttl, Latest(g), r)
    ensures var latest, msgs := Latest(h[..|h| - 1]), h[|h| - 1].msgs;
      !FindingOf(s, h).suspect &&
      CreatedChars(FindingOf(s, h).created) + (if latest.Some? then TotalChars(latest.value, |latest.value|) else 0) ==
        TotalChars(msgs, |msgs|)
  {
    var g, r := h[..|h| - 1], h[|h| - 1];
    var c, latest := ObserveAll(s, g), Latest(g);
    OursFinds(s, c, latest, r);
    OursExtends(c, s.ttl, latest, r);
    hide Remembers, FindsOurs, Find, Remember, TotalChars, CreatedChars, CreatedIn, KeyOf, Lead, Latest, ObserveAll;
    var from := if latest.Some? then |latest.value| else 0;
    assert FindingOf(s, h).newStart == from && !FindingOf(s, h).suspect;
    CreatedIsTheRest(r.msgs, from, |r.msgs|, s.resolve);
    PrefixTotal(latest, r.msgs);
  }

  lemma LatestTracked(c: Cache<Key, Conv>, consumer: string, latest: Option<seq<Message>>)
    requires Remembers(c, consumer, latest)
    ensures latest.Some? ==> Lead(latest.value) != []
  {
  }

  lemma OursExtends(c: Cache<Key, Conv>, ttl: int, latest: Option<seq<Message>>, r: Request)
    requires FindsOurs(c, ttl, latest, r)
    ensures latest.Some? ==> latest.value <= r.msgs
  {
  }

  lemma PrefixTotal(latest: Option<seq<Message>>, msgs: seq<Message>)
    requires latest.Some? ==> latest.value <= msgs
    ensures latest.Some? ==> TotalChars(latest.value, |latest.value|) == TotalChars(msgs, |latest.value|)
    ensures TotalChars(msgs, 0) == 0
  {
    if latest.Some? {
      TotalOfPrefix(latest.value, msgs, |latest.value|);
    }
  }

  // ---- What an entry stands for ----

  lemma {:induction false} AllConsistent(s: Setup, h: seq<Request>)
    ensures Consistent(ObserveAll(s, h), s.max)
  {
    if h != [] {
      hide Consistent, Observe;
      AllConsistent(s, h[..|h| - 1]);
      ObserveAdds(s, ObserveAll(s, h[..|h| - 1]), h[|h| - 1]);
    }
  }

  /** Request i is the latest one under the key, and the entry is what it left. */
  ghost predicate StoredBy(h: seq<Request>, i: int, k: Key, e: Entry<Conv>)
  {
    && 0 <= i < |h| && Lead(h[i].msgs) != []
    && k == KeyOf(h[i].msgs, h[i].consumer) && e == EntryOf(h[i])
    && forall j | i < j < |h| && Lead(h[j].msgs) != [] :: KeyOf(h[j].msgs, h[j].consumer) != k
  }

  /** Every entry of a cache that requests filled stands for the latest request under its key. */
  lemma {:induction false} EntryIsARequest(s: Setup, h: seq<Request>, k: Key) returns (i: int)
    requires k in ObserveAll(s, h).entries
    ensures StoredBy(h, i, k, ObserveAll(s, h).entries[k])
  {
    hide Consistent, Observe, Lead, EntryOf, KeyOf;
    var n := |h| - 1;
    var g, r := h[..n], h[n];
    AllConsistent(s, g);
    ObserveAdds(s, ObserveAll(s, g), r);
    if Lead(r.msgs) != [] && k == KeyOf(r.msgs, r.consumer) {
      i := n;
    } else {
      i := EntryIsARequest(s, g, k);
    }
  }

  /** The last request of the history is found to go on from request i. */
  ghost predicate GoesOnFrom(s: Setup, h: seq<Request>, i: int)
    requires h != []
  {
    var g, r := h[..|h| - 1], h[|h| - 1];
    var found := Find(ObserveAll(s, g), s.ttl, r.msgs, r.consumer, r.now).1;
    found.Some? && 0 <= i < |g| && StoredBy(g, i, found.value.0, Entry(found.value.1, h[i].now))
  }

  lemma FindIsEntry(c: Cache<Key, Conv>, ttl: int, msgs: seq<Message>, consumer: string, now: int)
    ensures var found := Find(c, ttl, msgs, consumer, now).1;
      found.Some? ==> found.value.0 in c.entries && c.entries[found.value.0].value == found.value.1
  {
    hide Lead;
  }

  /** After any history a request goes on from at most one earlier request. It is suspect exactly when it
      goes on from one that it does not extend; otherwise just what it adds to that one counts as new. */
  lemma SuspectIffEdited(s: Setup, h: seq<Request>)
    requires h != []
    ensures forall i, j | GoesOnFrom(s, h, i) && GoesOnFrom(s, h, j) :: i == j
    ensures var f, msgs := FindingOf(s, h), h[|h| - 1].msgs;
      && (f.suspect <==> exists i :: GoesOnFrom(s, h, i) && !(h[i].msgs <= msgs))
      && (forall i | GoesOnFrom(s, h, i) && h[i].msgs <= msgs :: f.newStart == |h[i].msgs|)
      && (f.newStart > 0 ==> exists i :: GoesOnFrom(s, h, i) && h[i].msgs == msgs[..f.newStart])
      && CreatedChars(f.created) == f.total - TotalChars(msgs, f.newStart)
  {
    hide Find, Remember, CreatedIn, CreatedChars, TotalChars, Lead, KeyOf;
    var g, r := h[..|h| - 1], h[|h| - 1];
    var c := ObserveAll(s, g);
    var found := Find(c, s.ttl, r.msgs, r.consumer, r.now).1;
    FindIsEntry(c, s.ttl, r.msgs, r.consumer, r.now);
    if found.Some? {
      var i := EntryIsARequest(s, g, found.value.0);
      assert GoesOnFrom(s, h, i);
    }
    SuspectMeansEdited(c, s.max, s.ttl, r.msgs, r.consumer, r.now, s.resolve);
  }

  // ---- What traffic keeps cached ----

  /** The keys that requests are remembered under. */
  ghost function KeysOf(h: seq<Request>): set<Key>
  {
    set r | r in h && Lead(r.msgs) != [] :: KeyOf(r.msgs, r.consumer)
  }

  /** The conversation's latest request. */
  function LatestAt(h: seq<Request>): (i: int)
    ensures if Latest(h).Some? then 0 <= i < |h| && h[i].ours && h[i].msgs == Latest(h).value else i == -1
  {
    if h == [] then -1 else if h[|h| - 1].ours then |h| - 1 else LatestAt(h[..|h| - 1])
  }

  /** The next request comes within the time to live of the conversation's latest one, and since that one
      fewer other conversations were seen than the cache has room for. */
  ghost predicate ComesInTime(s: Setup, g: seq<Request>, r: Request)
    requires Latest(g).Some?
  {
    r.now - g[LatestAt(g)].now <= s.ttl && |KeysOf(g[LatestAt(g) + 1..])| < s.max
  }

  /** No request within the time to live was remembered under the key. */
  ghost predicate Unused(s: Setup, g: seq<Request>, k: Option<Key>, now: int)
  {
    k.Some? ==> forall q | q in g && Lead(q.msgs) != [] && KeyOf(q.msgs, q.consumer) == k.value :: now - q.now > s.ttl
  }

  /** The next request may follow a history, by what anyone can see of the traffic. The first request of the
      conversation, and the first one with a second message, come under a key that no other conversation
      used within the time to live; each extends the one before, in time. Any other request looks for its
      own conversation elsewhere than under the key that ours has at that point. */
  ghost predicate Continues(s: Setup, consumer: string, g: seq<Request>, r: Request)
  {
    if !r.ours then
      Latest(g).Some? && Lead(Latest(g).value) != [] ==> !LooksUnder(r, KeyOf(Latest(g).value, consumer))
    else
      && r.consumer == consumer && Lead(r.msgs) != []
      && match Latest(g)
         case None => Unused(s, g, FullKey(r.msgs, consumer), r.now) && Unused(s, g, ShortKey(r.msgs, consumer), r.now)
         case Some(msgs) =>
           && Lead(msgs) != [] && msgs <= r.msgs && ComesInTime(s, g, r)
           && (FullKey(r.msgs, consumer) != Some(KeyOf(msgs, consumer)) ==>
                 Unused(s, g, FullKey(r.msgs, consumer), r.now))
  }

  ghost predicate Steady(s: Setup, consumer: string, h: seq<Request>)
  {
    h == [] || (Steady(s, consumer, h[..|h| - 1]) && Continues(s, consumer, h[..|h| - 1], h[|h| - 1]))
  }

  lemma FindHolds(s: Setup, c: Cache<Key, Conv>, r: Request, k: Key, e: Entry<Conv>, others: set<Key>)
    requires Consistent(c, s.max) && Holds(c, k, e, others) && |others| < s.max && !LooksUnder(r, k)
    ensures Holds(Find(c, s.ttl, r.msgs, r.consumer, r.now).0, k, e, others)
  {
    hide Consistent, Holds, OnGet, Lead;
    var full, short := FullKey(r.msgs, r.consumer), ShortKey(r.msgs, r.consumer);
    var c1 := c;
    if full.Some? {
      StepHolds(c, s.max, s.ttl, Get(full.value, r.now), k, e, others);
      GetRemoves(c, s.ttl, full.value, r.now, s.max);
      c1 := OnGet(c, s.ttl, full.value, r.now).0;
    }
    if short.Some? {
      StepHolds(c1, s.max, s.ttl, Get(short.value, r.now), k, e, others);
    }
  }

  /** A request that does not look under a key pushes its entry back by at most its own key. */
  lemma OtherHolds(s: Setup, c: Cache<Key, Conv>, r: Request, k: Key, e: Entry<Conv>, others: set<Key>)
    requires Consistent(c, s.max) && Holds(c, k, e, others) && |others| < s.max && !LooksUnder(r, k)
    requires Lead(r.msgs) != [] ==> KeyOf(r.msgs, r.consumer) in others
    ensures Holds(Observe(c, s.max, s.ttl, r.msgs, r.consumer, r.now, s.resolve).0, k, e, others)
  {
    hide Consistent, Holds, OnGet, OnPut, OnDel, Lead, Judge, CreatedIn, TotalChars;
    FindHolds(s, c, r, k, e, others);
    FindRemoves(s, c, r);
    var (c1, found) := Find(c, s.ttl, r.msgs, r.consumer, r.now);
    assert |Lead(r.msgs)| <= 2;
    if Lead(r.msgs) != [] {
      var own, v := KeyOf(r.msgs, r.consumer), EntryOf(r).value;
      StepHolds(c1, s.max, s.ttl, Put(own, v, r.now), k, e, others);
      PutAdds(c1, s.max, own, v, r.now);
      if found.Some? {
        StepHolds(OnPut(c1, s.max, own, v, r.now), s.max, s.ttl, Del(found.value.0), k, e, others);
      }
    }
  }

  /** A request leaves its own entry in front. */
  lemma OwnHolds(s: Setup, c: Cache<Key, Conv>, r: Request, others: set<Key>)
    requires Consistent(c, s.max) && |others| < s.max && Lead(r.msgs) != []
    ensures Holds(Observe(c, s.max, s.ttl, r.msgs, r.consumer, r.now, s.resolve).0,
                  KeyOf(r.msgs, r.consumer), EntryOf(r), others)
  {
    hide Consistent, Holds, OnGet, OnPut, OnDel, Lead, Judge, CreatedIn, TotalChars;
    FindRemoves(s, c, r);
    var (c1, found) := Find(c, s.ttl, r.msgs, r.consumer, r.now);
    assert |Lead(r.msgs)| <= 2;
    var own, v := KeyOf(r.msgs, r.consumer), EntryOf(r).value;
    PutHolds(c1, s.max, own, v, r.now, others);
    PutAdds(c1, s.max, own, v, r.now);
    if found.Some? && found.value.0 != own {
      StepHolds(OnPut(c1, s.max, own, v, r.now), s.max, s.ttl, Del(found.value.0), own, EntryOf(r), others);
    }
  }

  lemma {:induction false} LatestAsked(s: Setup, consumer: string, h: seq<Request>)
    requires Steady(s, consumer, h)
    ensures Latest(h).Some? ==> Lead(Latest(h).value) != [] && h[LatestAt(h)].consumer == consumer
  {
    if h != [] {
      hide Lead;
      LatestAsked(s, consumer, h[..|h| - 1]);
    }
  }

  /** While fewer other keys were used than fit, the latest request's entry stands, behind only those. */
  lemma {:induction false} LatestHolds(s: Setup, consumer: string, h: seq<Request>, others: set<Key>)
    requires Steady(s, consumer, h) && Latest(h).Some?
    requires KeysOf(h[LatestAt(h) + 1..]) <= others && |others| < s.max
    ensures Lead(Latest(h).value) != [] && h[LatestAt(h)].consumer == consumer
    ensures Holds(ObserveAll(s, h), KeyOf(Latest(h).value, consumer), EntryOf(h[LatestAt(h)]), others)
  {
    hide Consistent, Holds, Observe, Lead, KeyOf, EntryOf, LooksUnder, Unused, ComesInTime;
    var n := |h| - 1;
    var g, r := h[..n], h[n];
    AllConsistent(s, g);
    LatestAsked(s, consumer, h);
    if r.ours {
      OwnHolds(s, ObserveAll(s, g), r, others);
    } else {
      var i := LatestAt(g);
      assert h[i + 1..] == g[i + 1..] + [r];
      LatestHolds(s, consumer, g, others);
      assert r in h[i + 1..];
      OtherHolds(s, ObserveAll(s, g), r, KeyOf(Latest(g).value, consumer), EntryOf(g[i]), others);
    }
  }

  /** What was not used in time is not found. */
  lemma UnusedIsMissed(s: Setup, g: seq<Request>, k: Option<Key>, now: int)
    requires Unused(s, g, k, now)
    ensures Missed(ObserveAll(s, g), s.ttl, k, now)
  {
    if k.Some? && k.value in ObserveAll(s, g).entries {
      var i := EntryIsARequest(s, g, k.value);
      assert g[i] in g;
    }
  }

  /** In steady traffic the cache never loses the conversation. */
  lemma {:induction false} SteadyIsUninterrupted(s: Setup, consumer: string, h: seq<Request>)
    requires Steady(s, consumer, h)
    ensures Uninterrupted(s, consumer, h)
  {
    if h != [] {
      hide Observe, ObserveAll, Lead, Holds, Unused, Missed, StillCached, FullKey, ShortKey, KeyOf;
      var g, r := h[..|h| - 1], h[|h| - 1];
      SteadyIsUninterrupted(s, consumer, g);
      if !r.ours {
        OwnIsLookedUp(r);
      } else {
        UnusedIsMissedIf(s, g, FullKey(r.msgs, consumer), r.now);
        UnusedIsMissedIf(s, g, ShortKey(r.msgs, consumer), r.now);
        if Latest(g).Some? {
          LatestHolds(s, consumer, g, KeysOf(g[LatestAt(g) + 1..]));
          HeldIsCached(s, ObserveAll(s, g), g[LatestAt(g)], KeysOf(g[LatestAt(g) + 1..]), r.now);
        }
      }
    }
  }

  lemma UnusedIsMissedIf(s: Setup, g: seq<Request>, k: Option<Key>, now: int)
    ensures Unused(s, g, k, now) ==> Missed(ObserveAll(s, g), s.ttl, k, now)
  {
    if Unused(s, g, k, now) {
      UnusedIsMissed(s, g, k, now);
    }
  }

  lemma OwnIsLookedUp(r: Request)
    ensures Lead(r.msgs) != [] ==> LooksUnder(r, KeyOf(r.msgs, r.consumer))
  {
    hide Lead;
  }

  lemma HeldIsCached(s: Setup, c: Cache<Key, Conv>, latest: Request, others: set<Key>, now: int)
    requires Lead(latest.msgs) != [] && now - latest.now <= s.ttl
    requires Holds(c, KeyOf(latest.msgs, latest.consumer), EntryOf(latest), others)
    ensures StillCached(c, s.ttl, KeyOf(latest.msgs, latest.consumer), now)
  {
  }

  /** The conservation law by traffic alone: as long as each request of a conversation extends the one
      before within the time to live, fewer other conversations than the cache has room for came in between,
      and none of them looked under its key, none of its requests is suspect and the created characters add
      up to the latest total. */
  lemma TrafficConserves(s: Setup, consumer: string, h: seq<Request>)
    requires Steady(s, consumer, h)
    ensures SuspectCount(s, h) == 0
    ensures CreatedSum(s, h) == if Latest(h).Some? then TotalChars(Latest(h).value, |Latest(h).value|) else 0
  {
    hide Steady, Uninterrupted, SuspectCount, CreatedSum, TotalChars, Latest;
    SteadyIsUninterrupted(s, consumer, h);
    CreationIsConserved(s, consumer, h);
  }
}
