/** Detecting what is new in a request: fingerprints, prefix digests and the conversation cache. Digests are
    taken as injective, so a digest of messages is modelled by the messages themselves. */
module Conversation {
  import opened Wrappers
  import opened Measure
  import opened ConvLru

  /** Fingerprint of a conversation: consumer and its first two, or its only, non-system message. */
  datatype Key = Full(consumer: string, first: Message, second: Message) | Short(consumer: string, first: Message)

  /** What is remembered of a conversation. */
  datatype Conv = Conv(count: nat, totalChars: nat, prefix: seq<Message>, short: bool)

  /** What one request is found to add. */
  datatype Finding = Finding(newStart: nat, suspect: bool, created: Created, total: nat)

  // ---- Keys ----

  predicate IsSystem(m: Message)
  {
    m.Message? && (m.role == "system" || m.role == "developer")
  }

  /** The first two messages of a request that are not system messages. */
  function Lead(msgs: seq<Message>): (r: seq<Message>)
    ensures |r| <= 2
  {
    if msgs == [] then []
    else
      var r := Lead(msgs[..|msgs| - 1]);
      if |r| < 2 && !IsSystem(msgs[|msgs| - 1]) then r + [msgs[|msgs| - 1]] else r
  }

  function FullKey(msgs: seq<Message>, consumer: string): Option<Key>
  {
    var r := Lead(msgs);
    if |r| == 2 then Some(Full(consumer, r[0], r[1])) else None
  }

  function ShortKey(msgs: seq<Message>, consumer: string): Option<Key>
  {
    var r := Lead(msgs);
    if |r| >= 1 then Some(Short(consumer, r[0])) else None
  }

  /** fingerprints: both keys in one scan that stops at the second non-system message. */
  method Fingerprints(msgs: seq<Message>, consumer: string) returns (full: Option<Key>, short: Option<Key>)
    ensures full == FullKey(msgs, consumer) && short == ShortKey(msgs, consumer)
  {
    var idx: seq<Message> := [];
    for i := 0 to |msgs|
      invariant |idx| < 2 && idx == Lead(msgs[..i])
    {
      assert msgs[..i + 1][..i] == msgs[..i];
      if !IsSystem(msgs[i]) {
        idx := idx + [msgs[i]];
        if |idx| == 2 {
          LeadStays(msgs[..i + 1], msgs);
          return Some(Full(consumer, idx[0], idx[1])), Some(Short(consumer, idx[0]));
        }
      }
    }
    assert msgs[..|msgs|] == msgs;
    if |idx| == 0 {
      return None, None;
    }
    return None, Some(Short(consumer, idx[0]));
  }

  /** A longer request starts with the same lead. */
  lemma {:induction false} LeadStays(msgs: seq<Message>, more: seq<Message>)
    requires msgs <= more
    ensures Lead(msgs) <= Lead(more)
    decreases |more|
  {
    if |msgs| < |more| {
      LeadStays(msgs, more[..|more| - 1]);
    } else {
      assert msgs == more;
    }
  }

  /** prefixSums: digests of the first `at` messages and of all of them in one pass. */
  method PrefixSums(hs: seq<Message>, at: nat) returns (atSum: Option<seq<Message>>, fullSum: seq<Message>)
    ensures at <= |hs| ==> atSum == Some(hs[..at]) && fullSum == hs
    ensures at > |hs| ==> atSum == None
  {
    if at > |hs| {
      return None, [];
    }
    var run: seq<Message> := [];
    atSum := if at == 0 then Some(run) else None;
    for i := 0 to |hs|
      invariant run == hs[..i]
      invariant at <= i ==> atSum == Some(hs[..at])
    {
      run := run + [hs[i]];
      if i + 1 == at {
        atSum := Some(run);
      }
    }
    fullSum := run;
  }

  // ---- One request ----

  /** The cached conversation a request belongs to and the key it was found under: the full key first. */
  function Find(c: Cache<Key, Conv>, ttl: int, msgs: seq<Message>, consumer: string, now: int)
    : (Cache<Key, Conv>, Option<(Key, Conv)>)
  {
    var full, short := FullKey(msgs, consumer), ShortKey(msgs, consumer);
    var (c1, hit) := if full.Some? then OnGet(c, ttl, full.value, now) else (c, None);
    if hit.Some? then (c1, Some((full.value, hit.value)))
    else if short.Some? then
      var (c2, hit2) := OnGet(c1, ttl, short.value, now);
      (c2, if hit2.Some? then Some((short.value, hit2.value)) else None)
    else (c1, None)
  }

  /** Where the new messages start; an edited or shortened history makes all of them new, and suspect. */
  function Judge(found: Option<(Key, Conv)>, msgs: seq<Message>): (nat, bool)
  {
    if found.None? then (0, false)
    else if found.value.1.count <= |msgs| && msgs[..found.value.1.count] == found.value.1.prefix
      then (found.value.1.count, false)
    else (0, true)
  }

  /** Remembers the request under its full key, migrating it from the key it was found under, or under
      its short key. */
  function Remember(c: Cache<Key, Conv>, max: nat, found: Option<(Key, Conv)>, msgs: seq<Message>, consumer: string,
      now: int): Cache<Key, Conv>
  {
    var full, short := FullKey(msgs, consumer), ShortKey(msgs, consumer);
    var total := TotalChars(msgs, |msgs|);
    if full.Some? then
      var c1 := OnPut(c, max, full.value, Conv(|msgs|, total, msgs, false), now);
      if found.Some? && found.value.0 != full.value then OnDel(c1, found.value.0) else c1
    else if short.Some? then OnPut(c, max, short.value, Conv(|msgs|, total, msgs, true), now)
    else c
  }

  function Observe(c: Cache<Key, Conv>, max: nat, ttl: int, msgs: seq<Message>, consumer: string, now: int,
      resolve: Resolver): (Cache<Key, Conv>, Finding)
  {
    var (c1, found) := Find(c, ttl, msgs, consumer, now);
    var (newStart, suspect) := Judge(found, msgs);
    (Remember(c1, max, found, msgs, consumer, now),
     Finding(newStart, suspect, CreatedIn(msgs, newStart, |msgs|, resolve), TotalChars(msgs, |msgs|)))
  }

  /** The cache part of process. */
  method Track(lru: LRU<Key, Conv>, msgs: seq<Message>, consumer: string, now: int, resolve: Resolver)
      returns (f: Finding)
    requires lru.Valid()
    modifies lru
    ensures lru.Valid()
    ensures (lru.Abstract(), f) == Observe(old(lru.Abstract()), lru.max, lru.ttl, msgs, consumer, now, resolve)
  {
    hide OnGet, OnPut, OnDel, CreatedIn, TotalChars, Lead, Consistent;
    var full, short := Fingerprints(msgs, consumer);
    var entry: Option<Conv> := None;
    var found: Option<Key> := None;
    if full.Some? {
      entry := lru.Lookup(full.value, now);
      if entry.Some? {
        found := full;
      }
    }
    if entry.None? && short.Some? {
      entry := lru.Lookup(short.value, now);
      if entry.Some? {
        found := short;
      }
    }
    ghost var hit := if entry.Some? then Some((found.value, entry.value)) else None;
    assert (lru.Abstract(), hit) == Find(old(lru.Abstract()), lru.ttl, msgs, consumer, now);
    var newStart, suspect := 0, false;
    var _, fullSum := PrefixSums(msgs, 0);
    if entry.Some? {
      var atSum, _ := PrefixSums(msgs, entry.value.count);
      if atSum == Some(entry.value.prefix) {
        newStart := entry.value.count;
      } else {
        suspect := true;
      }
    }
    assert (newStart, suspect) == Judge(hit, msgs);
    var created, total := MeasureMessages(msgs, newStart, resolve);
    if full.Some? {
      lru.Store(full.value, Conv(|msgs|, total, fullSum, false), now);
      if entry.Some? && found != full {
        lru.Remove(found.value);
      }
    } else if short.Some? {
      lru.Store(short.value, Conv(|msgs|, total, fullSum, true), now);
    }
    f := Finding(newStart, suspect, created, total);
  }

  // ---- What the cache remembers ----

  ghost predicate Recalls(v: Conv)
  {
    v.count == |v.prefix|
  }

  /** A request is suspect exactly when its conversation is cached and it does not extend what was seen. */
  lemma SuspectMeansEdited(c: Cache<Key, Conv>, max: nat, ttl: int, msgs: seq<Message>, consumer: string, now: int,
      resolve: Resolver)
    requires var found := Find(c, ttl, msgs, consumer, now).1; found.Some? ==> Recalls(found.value.1)
    ensures var f, found := Observe(c, max, ttl, msgs, consumer, now, resolve).1, Find(c, ttl, msgs, consumer, now).1;
      && (f.suspect <==> found.Some? && !(found.value.1.prefix <= msgs))
      && (f.newStart > 0 ==> found.Some? && msgs[..f.newStart] == found.value.1.prefix)
      && CreatedChars(f.created) == f.total - (if f.newStart <= |msgs| then TotalChars(msgs, f.newStart) else 0)
  {
    hide Find, Remember, CreatedIn, CreatedChars, TotalChars;
    var f := Observe(c, max, ttl, msgs, consumer, now, resolve).1;
    CreatedIsTheRest(msgs, f.newStart, |msgs|, resolve);
  }
}
