/** Character accounting over the messages of one chat request. */
module Measure {
  import opened Wrappers

  /** A message by its canonical JSON and the sizes measured in it; other JSON values measure nothing. */
  datatype Message =
    | NotAnObject(json: string)
    | Message(json: string, role: string, text: nat, reasoning: nat, args: nat)

  datatype ToolStat = ToolStat(results: nat, chars: nat, big8k: nat, big24k: nat, max: nat)

  datatype Created = Created(user: nat, assistantText: nat, assistantReasoning: nat, toolArgs: nat, other: nat,
    tools: map<string, ToolStat>, maxResult: nat, maxResultTool: string)

  const BIG_8K: nat := 8000
  const BIG_24K: nat := 24000
  const NOTHING: Created := Created(0, 0, 0, 0, 0, map[], 0, "")

  /** Names the tool behind the result message at an index of the whole request. */
  type Resolver = (seq<Message>, nat) -> string

  /** Characters of a message; reasoning and tool arguments count for assistants only. */
  function SizeOf(m: Message): nat
  {
    if m.NotAnObject? then 0 else m.text + (if m.role == "assistant" then m.args + m.reasoning else 0)
  }

  function TotalChars(msgs: seq<Message>, n: nat): nat
    requires n <= |msgs|
  {
    if n == 0 then 0 else TotalChars(msgs, n - 1) + SizeOf(msgs[n - 1])
  }

  function AddResult(s: ToolStat, chars: nat): ToolStat
  {
    ToolStat(s.results + 1, s.chars + chars,
      s.big8k + (if chars > BIG_8K then 1 else 0), s.big24k + (if chars > BIG_24K then 1 else 0),
      if chars > s.max then chars else s.max)
  }

  function ToolOf(tools: map<string, ToolStat>, name: string): ToolStat
  {
    if name in tools then tools[name] else ToolStat(0, 0, 0, 0, 0)
  }

  /** The measurement with message i added, by role. */
  function AddMessage(c: Created, msgs: seq<Message>, i: nat, resolve: Resolver): Created
    requires i < |msgs|
  {
    var m := msgs[i];
    if m.NotAnObject? then c
    else if m.role == "user" then c.(user := c.user + m.text)
    else if m.role == "assistant" then
      c.(assistantText := c.assistantText + m.text, assistantReasoning := c.assistantReasoning + m.reasoning,
         toolArgs := c.toolArgs + m.args)
    else if m.role == "tool" || m.role == "function" then
      var name := resolve(msgs, i);
      var c' := c.(tools := c.tools[name := AddResult(ToolOf(c.tools, name), m.text)]);
      if m.text > c.maxResult then c'.(maxResult := m.text, maxResultTool := name) else c'
    else c.(other := c.other + m.text)
  }

  /** The measurement of messages from..n-1. */
  function CreatedIn(msgs: seq<Message>, from: nat, n: nat, resolve: Resolver): Created
    requires n <= |msgs|
  {
    if n <= from then NOTHING else AddMessage(CreatedIn(msgs, from, n - 1, resolve), msgs, n - 1, resolve)
  }

  method MeasureMessages(msgs: seq<Message>, from: nat, resolve: Resolver) returns (c: Created, total: nat)
    ensures c == CreatedIn(msgs, from, |msgs|, resolve)
    ensures total == TotalChars(msgs, |msgs|)
  {
    c, total := NOTHING, 0;
    for i := 0 to |msgs|
      invariant c == CreatedIn(msgs, from, i, resolve)
      invariant total == TotalChars(msgs, i)
    {
      var m := msgs[i];
      if m.NotAnObject? {
        continue;
      }
      var chars := m.text;
      var args, reasoning := 0, 0;
      if m.role == "assistant" {
        reasoning := m.reasoning;
        args := m.args;
      }
      total := total + chars + args + reasoning;
      if i < from {
        continue;
      }
      match m.role {
        case "user" =>
          c := c.(user := c.user + chars);
        case "assistant" =>
          c := c.(assistantText := c.assistantText + chars);
          c := c.(assistantReasoning := c.assistantReasoning + reasoning);
          c := c.(toolArgs := c.toolArgs + args);
        case _ =>
          if m.role == "tool" || m.role == "function" {
            var name := resolve(msgs, i);
            c := c.(tools := c.tools[name := AddResult(ToolOf(c.tools, name), chars)]);
            if chars > c.maxResult {
              c := c.(maxResult := chars, maxResultTool := name);
            }
          } else {
            c := c.(other := c.other + chars);
          }
      }
    }
  }

  // ---- Sums over maps ----

  /** The sum of f over the values of a map. */
  ghost function SumOf<K(!new), V>(m: map<K, V>, f: V -> nat): nat
    decreases |m|
  {
    if m == map[] then 0
    else
      var k := AnyKey(m.Keys);
      assert |(m - {k}).Keys| < |m.Keys| by { assert (m - {k}).Keys == m.Keys - {k}; }
      f(m[k]) + SumOf(m - {k}, f)
  }

  ghost function AnyKey<K>(s: set<K>): (k: K)
    requires s != {}
    ensures k in s
  {
    var k :| k in s;
    k
  }

  /** Any key may be taken out first. */
  lemma {:induction false} SumTake<K(!new), V>(m: map<K, V>, f: V -> nat, k: K)
    requires k in m
    ensures SumOf(m, f) == f(m[k]) + SumOf(m - {k}, f)
    decreases |m|
  {
    var j := AnyKey(m.Keys);
    if j != k {
      var rest, both := m - {j}, m - {k};
      assert rest.Keys == m.Keys - {j} && both.Keys == m.Keys - {k};
      assert |rest.Keys| < |m.Keys| && |both.Keys| < |m.Keys|;
      SumTake(rest, f, k);
      SumTake(both, f, j);
      assert rest - {k} == both - {j};
    }
  }

  lemma SumPut<K(!new), V>(m: map<K, V>, f: V -> nat, k: K, v: V)
    ensures SumOf(m[k := v], f) == SumOf(m, f) + f(v) - (if k in m then f(m[k]) else 0)
  {
    SumTake(m[k := v], f, k);
    assert m[k := v] - {k} == m - {k};
    if k in m {
      SumTake(m, f, k);
    } else {
      assert m - {k} == m;
    }
  }

  // ---- The measurement is additive ----

  const CHARS: ToolStat -> nat := (s: ToolStat) => s.chars

  /** All characters of a measurement. */
  ghost function CreatedChars(c: Created): nat
  {
    c.user + c.assistantText + c.assistantReasoning + c.toolArgs + c.other + SumOf(c.tools, CHARS)
  }

  lemma MessageAdds(c: Created, msgs: seq<Message>, i: nat, resolve: Resolver)
    requires i < |msgs|
    ensures CreatedChars(AddMessage(c, msgs, i, resolve)) == CreatedChars(c) + SizeOf(msgs[i])
  {
    var m := msgs[i];
    if m.Message? && (m.role == "tool" || m.role == "function") {
      var name := resolve(msgs, i);
      SumPut(c.tools, CHARS, name, AddResult(ToolOf(c.tools, name), m.text));
    }
  }

  lemma NothingCreated()
    ensures CreatedChars(NOTHING) == 0
  {
  }

  /** What is measured from a message on is the total minus what came before it. */
  lemma {:induction false} CreatedIsTheRest(msgs: seq<Message>, from: nat, n: nat, resolve: Resolver)
    requires from <= n <= |msgs|
    ensures CreatedChars(CreatedIn(msgs, from, n, resolve)) + TotalChars(msgs, from) == TotalChars(msgs, n)
    decreases n
  {
    hide AddMessage, CreatedChars, SizeOf;
    if from == n {
      NothingCreated();
    } else {
      CreatedIsTheRest(msgs, from, n - 1, resolve);
      MessageAdds(CreatedIn(msgs, from, n - 1, resolve), msgs, n - 1, resolve);
    }
  }

  lemma {:induction false} TotalOfPrefix(msgs: seq<Message>, more: seq<Message>, n: nat)
    requires msgs <= more && n <= |msgs|
    ensures TotalChars(msgs, n) == TotalChars(more, n)
  {
    if n > 0 {
      TotalOfPrefix(msgs, more, n - 1);
    }
  }
}
