/** The context-creation ledger: bounded labels and hourly rows per consumer, model and tool. */
module Ledger {
  import opened Wrappers
  import opened Measure
  import opened ConvLru
  import opened Conversation

  const MAX_LABEL_LENGTH: nat := 64
  const MAX_CONSUMERS: nat := 64
  const MAX_MODELS: nat := 64
  const MAX_TOOLS: nat := 200

  // ---- Labels ----

  function Clip(s: string): (r: string)
    ensures r != "" && |r| <= MAX_LABEL_LENGTH
  {
    if s == "" then "unknown" else if |s| > MAX_LABEL_LENGTH then s[..MAX_LABEL_LENGTH] else s
  }

  /** bound: the label kept for s, and the label set afterwards. */
  function Bound(labels: set<string>, s: string, max: nat): (r: (string, set<string>))
    ensures r.0 != "" && labels <= r.1
    ensures |labels| <= max ==> |r.1| <= max
  {
    var t := Clip(s);
    if t in labels then (t, labels)
    else if |labels| >= max then ("other", labels)
    else (t, labels + {t})
  }

  function BoundAll(labels: set<string>, names: seq<string>, max: nat): set<string>
  {
    if names == [] then labels else Bound(BoundAll(labels, names[..|names| - 1], max), names[|names| - 1], max).1
  }

  /** A label is sticky: whatever other names come in between, a name keeps the label it got first. */
  lemma {:induction false} LabelIsSticky(labels: set<string>, s: string, between: seq<string>, max: nat)
    ensures var (name, after) := Bound(labels, s, max);
      var later := BoundAll(after, between, max);
      && after <= later
      && Bound(later, s, max).0 == name
      && (Clip(s) !in after ==> later == after && |after| >= max)
  {
    hide Clip;
    var (name, after) := Bound(labels, s, max);
    if between != [] {
      LabelIsSticky(labels, s, between[..|between| - 1], max);
    }
  }

  // ---- Rows ----

  datatype RowKey = RowKey(hour: int, consumer: string, model: string, tool: string)

  datatype Row = Row(requests: nat, newMsgs: nat, user: nat, assistantText: nat, assistantReasoning: nat,
    toolArgs: nat, other: nat, suspects: nat, toolResults: nat, toolOutput: nat, big8k: nat, big24k: nat,
    maxResult: nat)

  const EMPTY_ROW: Row := Row(0, 0, 0, 0, 0, 0, 0, 0, 0, 0, 0, 0, 0)

  function RowAt(rows: map<RowKey, Row>, k: RowKey): Row
  {
    if k in rows then rows[k] else EMPTY_ROW
  }

  /** All characters a row accounts for. */
  const ROW_CHARS: Row -> nat :=
    (r: Row) => r.user + r.assistantText + r.assistantReasoning + r.toolArgs + r.other + r.toolOutput

  function AddRequest(r: Row, f: Finding, n: nat): Row
  {
    r.(requests := r.requests + 1,
       newMsgs := r.newMsgs + if f.newStart <= n then n - f.newStart else 0,
       user := r.user + f.created.user,
       assistantText := r.assistantText + f.created.assistantText,
       assistantReasoning := r.assistantReasoning + f.created.assistantReasoning,
       toolArgs := r.toolArgs + f.created.toolArgs,
       other := r.other + f.created.other,
       suspects := r.suspects + if f.suspect then 1 else 0)
  }

  function AddTool(r: Row, s: ToolStat): Row
  {
    r.(requests := r.requests + 1,
       toolResults := r.toolResults + s.results,
       toolOutput := r.toolOutput + s.chars,
       big8k := r.big8k + s.big8k,
       big24k := r.big24k + s.big24k,
       maxResult := if s.max > r.maxResult then s.max else r.maxResult)
  }

  lemma RowPut(rows: map<RowKey, Row>, k: RowKey, r: Row)
    ensures SumOf(rows[k := r], ROW_CHARS) == SumOf(rows, ROW_CHARS) + ROW_CHARS(r) - ROW_CHARS(RowAt(rows, k))
  {
    SumPut(rows, ROW_CHARS, k, r);
  }

  /** The request row takes everything but the tool output. */
  lemma RequestPut(rows: map<RowKey, Row>, k: RowKey, f: Finding, n: nat)
    ensures SumOf(rows[k := AddRequest(RowAt(rows, k), f, n)], ROW_CHARS) + SumOf(f.created.tools, CHARS)
         == SumOf(rows, ROW_CHARS) + CreatedChars(f.created)
  {
    RowPut(rows, k, AddRequest(RowAt(rows, k), f, n));
  }

  /** The names of a set, each once, in some order. */
  ghost predicate Enumerates(order: seq<string>, names: set<string>)
  {
    (forall name :: name in order <==> name in names) && forall i, j | 0 <= i < j < |order| :: order[i] != order[j]
  }

  /** The tool rows of one request, charged in the given order to labels bounded one after another. */
  ghost function Charge(rows: map<RowKey, Row>, labels: set<string>, k: RowKey, stats: map<string, ToolStat>,
      order: seq<string>): (map<RowKey, Row>, set<string>)
    requires forall name | name in order :: name in stats
  {
    if order == [] then (rows, labels)
    else
      var name := order[|order| - 1];
      var (rows', labels') := Charge(rows, labels, k, stats, order[..|order| - 1]);
      var j := RowKey(k.hour, k.consumer, k.model, Bound(labels', name, MAX_TOOLS).0);
      (rows'[j := AddTool(RowAt(rows', j), stats[name])], Bound(labels', name, MAX_TOOLS).1)
  }

  lemma ChargeNothing(rows: map<RowKey, Row>, labels: set<string>, k: RowKey, stats: map<string, ToolStat>)
    ensures Charge(rows, labels, k, stats, []) == (rows, labels)
  {
  }

  lemma ChargeOne(rows: map<RowKey, Row>, labels: set<string>, k: RowKey, stats: map<string, ToolStat>,
      order: seq<string>, name: string)
    requires name in stats && forall n | n in order :: n in stats
    ensures var (rows', labels') := Charge(rows, labels, k, stats, order);
      var j := RowKey(k.hour, k.consumer, k.model, Bound(labels', name, MAX_TOOLS).0);
      Charge(rows, labels, k, stats, order + [name]) ==
        (rows'[j := AddTool(RowAt(rows', j), stats[name])], Bound(labels', name, MAX_TOOLS).1)
  {
  }

  class Ledger {
    const lru: LRU<Key, Conv>
    var consumers: set<string>
    var models: set<string>
    var tools: set<string>
    var pending: map<RowKey, Row>
    var suspects: map<string, nat>
    var observed: nat
    var parseFailures: nat

    ghost predicate Valid()
      reads this, lru
    {
      lru.Valid() && |consumers| <= MAX_CONSUMERS && |models| <= MAX_MODELS && |tools| <= MAX_TOOLS
    }

    constructor (lru: LRU<Key, Conv>)
      requires lru.Valid()
      ensures this.lru == lru && Valid() && pending == map[] && suspects == map[] && observed == parseFailures == 0
    {
      this.lru := lru;
      consumers, models, tools := {}, {}, {};
      pending, suspects, observed, parseFailures := map[], map[], 0, 0;
    }

    /** process: one request. A body without messages counts as a parse failure and changes nothing else. */
    method Process(msgs: seq<Message>, rawConsumer: string, rawModel: string, hour: int, now: int, resolve: Resolver)
        returns (f: Finding, ghost order: seq<string>)
      requires Valid()
      modifies this, lru
      ensures Valid()
      ensures msgs == [] ==>
        && parseFailures == old(parseFailures) + 1 && observed == old(observed)
        && pending == old(pending) && suspects == old(suspects) && lru.Abstract() == old(lru.Abstract())
        && consumers == old(consumers) && models == old(models) && tools == old(tools)
      ensures msgs != [] ==>
        var consumer := Bound(old(consumers), rawConsumer, MAX_CONSUMERS).0;
        var model := Bound(old(models), rawModel, MAX_MODELS).0;
        var k := RowKey(hour, consumer, model, "");
        && parseFailures == old(parseFailures) && observed == old(observed) + 1
        && consumers == Bound(old(consumers), rawConsumer, MAX_CONSUMERS).1
        && models == Bound(old(models), rawModel, MAX_MODELS).1
        && (lru.Abstract(), f) == Observe(old(lru.Abstract()), lru.max, lru.ttl, msgs, consumer, now, resolve)
        && Enumerates(order, f.created.tools.Keys)
        && (pending, tools) == Charge(old(pending)[k := AddRequest(RowAt(old(pending), k), f, |msgs|)],
                                      old(tools), k, f.created.tools, order)
        && SumOf(pending, ROW_CHARS) == SumOf(old(pending), ROW_CHARS) + CreatedChars(f.created)
        && RowAt(pending, k) == AddRequest(RowAt(old(pending), k), f, |msgs|)
        && (forall j | !SameScope(j, k) :: RowAt(pending, j) == RowAt(old(pending), j))
        && suspects == (if f.suspect then CountSuspect(old(suspects), consumer) else old(suspects))
    {
      hide Observe, Bound, CreatedChars, Consistent, SumOf, AddRequest, Charge, Enumerates;
      if |msgs| == 0 {
        parseFailures := parseFailures + 1;
        f := Finding(0, false, NOTHING, 0);
        order := [];
        return;
      }
      var (consumer, consumers') := Bound(consumers, rawConsumer, MAX_CONSUMERS);
      var (model, models') := Bound(models, rawModel, MAX_MODELS);
      consumers, models := consumers', models';
      f := Track(lru, msgs, consumer, now, resolve);
      observed := observed + 1;
      var k := RowKey(hour, consumer, model, "");
      RequestPut(pending, k, f, |msgs|);
      pending := pending[k := AddRequest(RowAt(pending, k), f, |msgs|)];
      if f.suspect {
        suspects := CountSuspect(suspects, consumer);
      }
      order := AddTools(k, f.created.tools);
    }

    /** The per-tool rows of one request, in any order of its tools. */
    method AddTools(k: RowKey, stats: map<string, ToolStat>) returns (ghost order: seq<string>)
      requires k.tool == "" && |tools| <= MAX_TOOLS
      modifies this`tools, this`pending
      ensures |tools| <= MAX_TOOLS
      ensures Enumerates(order, stats.Keys) && (pending, tools) == Charge(old(pending), old(tools), k, stats, order)
      ensures SumOf(pending, ROW_CHARS) == SumOf(old(pending), ROW_CHARS) + SumOf(stats, CHARS)
      ensures RowAt(pending, k) == RowAt(old(pending), k)
      ensures forall j | !SameScope(j, k) :: RowAt(pending, j) == RowAt(old(pending), j)
    {
      hide SumOf, Bound, Charge;
      var rest := stats;
      order := [];
      ChargeNothing(pending, tools, k, stats);
      while rest.Keys != {}
        invariant |tools| <= MAX_TOOLS && rest.Keys <= stats.Keys
        invariant forall name | name in rest :: rest[name] == stats[name]
        invariant Enumerates(order, stats.Keys - rest.Keys)
        invariant (pending, tools) == Charge(old(pending), old(tools), k, stats, order)
        invariant SumOf(pending, ROW_CHARS) + SumOf(rest, CHARS) == SumOf(old(pending), ROW_CHARS) + SumOf(stats, CHARS)
        invariant RowAt(pending, k) == RowAt(old(pending), k)
        invariant forall j | !SameScope(j, k) :: RowAt(pending, j) == RowAt(old(pending), j)
        decreases rest.Keys
      {
        ghost var some := Wrappers.Member(rest.Keys);
        var name :| name in rest.Keys;
        var (tool, tools') := Bound(tools, name, MAX_TOOLS);
        tools := tools';
        var j := RowKey(k.hour, k.consumer, k.model, tool);
        RowPut(pending, j, AddTool(RowAt(pending, j), rest[name]));
        SumTake(rest, CHARS, name);
        ChargeOne(old(pending), old(tools), k, stats, order, name);
        order := order + [name];
        pending := pending[j := AddTool(RowAt(pending, j), rest[name])];
        rest := rest - {name};
      }
      NothingLeft(rest);
    }
  }

  lemma NothingLeft(stats: map<string, ToolStat>)
    requires stats.Keys == {}
    ensures SumOf(stats, CHARS) == 0
  {
  }

  predicate SameScope(j: RowKey, k: RowKey)
  {
    j.hour == k.hour && j.consumer == k.consumer && j.model == k.model
  }

  function CountSuspect(suspects: map<string, nat>, consumer: string): map<string, nat>
  {
    suspects[consumer := (if consumer in suspects then suspects[consumer] else 0) + 1]
  }
}
