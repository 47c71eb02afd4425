/** Parsing of five-field cron expressions. */
module CronParse {
  import opened Wrappers
  import opened Text
  import opened Arithmetic

  /** One comma-separated term: the values first, first+step, ... up to last. */
  datatype Term = BadTerm | Range(first: int, last: int, step: int, star: bool)

  /** Outcome of a field: its membership table, a syntax error, or the panic of an index outside the table. */
  datatype FieldResult = Field(table: seq<bool>, star: bool) | SyntaxError | IndexPanic

  datatype Schedule = Schedule(
    minute: seq<bool>, hour: seq<bool>, dom: seq<bool>, mon: seq<bool>, dow: seq<bool>,
    domStar: bool, dowStar: bool)

  datatype ParseResult = Parsed(schedule: Schedule) | Rejected | Panicked

  const TABLE_SIZE: int := 60

  /** The step after an optional '/': None when it is not a positive integer. */
  function StepOf(term: string): (r: Option<int>)
    ensures r.Some? ==> 1 <= r.value <= MAX_INT64
  {
    var i := IndexOf(term, '/');
    if i == |term| then Some(1)
    else
      var n := Atoi(term[i + 1..]);
      if n.Some? && n.value > 0 then n else None
  }

  function ParseTerm(term: string, lo: int, hi: int): (r: Term)
    requires lo <= hi
    ensures r.Range? ==> lo <= r.first <= r.last <= hi && 1 <= r.step <= MAX_INT64
    ensures r.Range? && r.star ==> r.first == lo && r.last == hi
  {
    var step := StepOf(term);
    var range := term[..IndexOf(term, '/')];
    if term == [] || step.None? then BadTerm
    else if range == "*" then Range(lo, hi, step.value, true)
    else if '-' in range then
      var i := IndexOf(range, '-');
      var a, b := Atoi(range[..i]), Atoi(range[i + 1..]);
      if a.None? || b.None? || a.value < lo || b.value > hi || a.value > b.value then BadTerm
      else Range(a.value, b.value, step.value, false)
    else
      var v := Atoi(range);
      if v.None? || v.value < lo || v.value > hi then BadTerm
      else Range(v.value, v.value, step.value, false)
  }

  predicate InTerm(t: Term, v: int)
  {
    t.Range? && t.step > 0 && t.first <= v <= t.last && (v - t.first) % t.step == 0
  }

  /** A step so large that first+step leaves int64: the loop index wraps to a negative number. */
  predicate Overflows(t: Term)
  {
    t.Range? && t.first + t.step > MAX_INT64
  }

  predicate Clean(t: Term) { t.Range? && !Overflows(t) }

  function Terms(field: string, lo: int, hi: int): (ts: seq<Term>)
    requires lo <= hi
  {
    var parts := SplitOn(field, ',');
    seq(|parts|, i requires 0 <= i < |parts| => ParseTerm(parts[i], lo, hi))
  }

  ghost predicate AllStar(ts: seq<Term>) { forall t | t in ts :: t.Range? && t.star }

  /** The table and star flag of a list of clean terms. */
  ghost predicate Union(ts: seq<Term>, table: seq<bool>, star: bool)
  {
    && |table| == TABLE_SIZE
    && (forall t | t in ts :: Clean(t))
    && (forall v | 0 <= v < TABLE_SIZE :: table[v] <==> exists t :: t in ts && InTerm(t, v))
    && (star <==> AllStar(ts))
  }

  /** Term k is the first that is not clean. */
  ghost predicate FirstFault(ts: seq<Term>, k: int)
  {
    0 <= k < |ts| && !Clean(ts[k]) && forall t | t in ts[..k] :: Clean(t)
  }

  /** What a list of terms denotes: their union, or the fate of the first faulty term. */
  ghost predicate Denotes(ts: seq<Term>, r: FieldResult)
  {
    match r
    case Field(table, star) => Union(ts, table, star)
    case SyntaxError => exists k :: FirstFault(ts, k) && ts[k].BadTerm?
    case IndexPanic => exists k :: FirstFault(ts, k) && Overflows(ts[k])
  }

  /** Every list of terms denotes at most one result. */
  lemma DenotationUnique(ts: seq<Term>, a: FieldResult, b: FieldResult)
    requires Denotes(ts, a) && Denotes(ts, b)
    ensures a == b
  {
  }

  lemma UnionExtend(ts: seq<Term>, table: seq<bool>, star: bool, t: Term, table': seq<bool>)
    requires Union(ts, table, star) && Clean(t) && |table'| == TABLE_SIZE
    requires forall v | 0 <= v < TABLE_SIZE :: table'[v] <==> table[v] || InTerm(t, v)
    ensures Union(ts + [t], table', star && t.star)
  {
  }

  method ParseField(field: string, lo: int, hi: int) returns (r: FieldResult)
    requires 0 <= lo <= hi < TABLE_SIZE
    ensures Denotes(Terms(field, lo, hi), r)
  {
    hide ParseTerm, SplitOn;
    var out := new bool[TABLE_SIZE](_ => false);
    var all := true;
    var parts := SplitOn(field, ',');
    ghost var ts := Terms(field, lo, hi);
    for k := 0 to |parts|
      invariant Union(ts[..k], out[..], all)
    {
      var t := ParseTerm(parts[k], lo, hi);
      if t.BadTerm? {
        assert FirstFault(ts, k);
        return SyntaxError;
      }
      ghost var before := out[..];
      var panicked := MarkTerm(out, t);
      if panicked {
        assert FirstFault(ts, k);
        return IndexPanic;
      }
      UnionExtend(ts[..k], before, all, t, out[..]);
      assert ts[..k + 1] == ts[..k] + [t];
      all := all && t.star;
    }
    assert ts[..|parts|] == ts;
    r := Field(out[..], all);
  }

  /** The loop over one term's values; true when the wrapped index falls outside the table. */
  method MarkTerm(out: array<bool>, t: Term) returns (panicked: bool)
    requires out.Length == TABLE_SIZE
    requires t.Range? && 0 <= t.first <= t.last < TABLE_SIZE && 1 <= t.step <= MAX_INT64
    modifies out
    ensures panicked <==> Overflows(t)
    ensures !panicked ==> forall u | 0 <= u < TABLE_SIZE :: out[u] <==> old(out[u]) || InTerm(t, u)
  {
    var v := t.first;
    assert (v - t.first) % t.step == 0;
    while v <= t.last
      invariant t.first <= v && (v - t.first) % t.step == 0
      invariant t.first < v ==> !Overflows(t)
      invariant forall u | 0 <= u < TABLE_SIZE :: out[u] <==> old(out[u]) || (u < v && InTerm(t, u))
      decreases t.last + 1 - v
    {
      out[v] := true;
      NextInTerm(t, v);
      StepInRange(t, v);
      v := WrapInt64(v + t.step);
      if v < 0 {
        // v <= t.last holds, so the next iteration would index out[v].
        return true;
      }
    }
    return false;
  }

  /** Adding the step either stays in int64 or wraps below zero; only the first value can wrap. */
  lemma StepInRange(t: Term, v: int)
    requires t.Range? && 0 <= t.first <= v <= t.last < TABLE_SIZE && 1 <= t.step <= MAX_INT64
    requires (v - t.first) % t.step == 0
    ensures if Overflows(t) then WrapInt64(v + t.step) < 0 else WrapInt64(v + t.step) == v + t.step
  {
    if v + t.step > MAX_INT64 && v > t.first {
      NextMultiple(0, t.step);
      assert false;
    }
  }

  /** Between v and v+step a stepped range has no further member. */
  lemma NextInTerm(t: Term, v: int)
    requires t.Range? && t.step > 0 && t.first <= v && (v - t.first) % t.step == 0
    ensures (v + t.step - t.first) % t.step == 0
    ensures forall u | v < u < v + t.step :: !InTerm(t, u)
  {
    NextMultiple(v - t.first, t.step);
    forall u | v < u < v + t.step
      ensures !InTerm(t, u)
    {
      assert v - t.first < u - t.first < v - t.first + t.step;
    }
  }

  function LowOf(i: nat): (lo: int)
    ensures 0 <= lo <= 1
  {
    if i == 2 || i == 3 then 1 else 0
  }

  function HighOf(i: nat): (hi: int)
    ensures 6 <= hi < TABLE_SIZE
  {
    match i
    case 0 => 59
    case 1 => 23
    case 2 => 31
    case 3 => 12
    case _ => 6
  }

  /** The terms of field i of an expression, within that field's bounds. */
  function FieldTerms(fields: seq<string>, i: nat): seq<Term>
    requires i < |fields|
  {
    Terms(fields[i], LowOf(i), HighOf(i))
  }

  /** The denotation of a whole expression: its first faulty field decides. */
  ghost predicate ParsesTo(expr: string, r: ParseResult)
  {
    var fields := Fields(expr);
    match r
    case Parsed(s) =>
      && |fields| == 5
      && Union(FieldTerms(fields, 0), s.minute, AllStar(FieldTerms(fields, 0)))
      && Union(FieldTerms(fields, 1), s.hour, AllStar(FieldTerms(fields, 1)))
      && Union(FieldTerms(fields, 2), s.dom, s.domStar)
      && Union(FieldTerms(fields, 3), s.mon, AllStar(FieldTerms(fields, 3)))
      && Union(FieldTerms(fields, 4), s.dow, s.dowStar)
    case Rejected =>
      |fields| != 5 || exists i :: FaultyField(fields, i) && Denotes(FieldTerms(fields, i), SyntaxError)
    case Panicked =>
      |fields| == 5 && exists i :: FaultyField(fields, i) && Denotes(FieldTerms(fields, i), IndexPanic)
  }

  ghost predicate CleanField(fields: seq<string>, i: nat)
    requires i < |fields|
  {
    forall t | t in FieldTerms(fields, i) :: Clean(t)
  }

  /** Field i is the first that holds a faulty term. */
  ghost predicate FaultyField(fields: seq<string>, i: int)
  {
    0 <= i < |fields| && !CleanField(fields, i) && forall j | 0 <= j < i :: CleanField(fields, j)
  }

  method Parse(expr: string) returns (r: ParseResult)
    ensures ParsesTo(expr, r)
    ensures r.Parsed? ==> WellFormed(r.schedule)
  {
    hide Fields, Terms, Bounded, Clean, AllStar;
    var fields := Fields(expr);
    if |fields| != 5 {
      return Rejected;
    }
    var tables := [];
    var stars := [];
    for i := 0 to 5
      invariant |tables| == |stars| == i
      invariant forall j | 0 <= j < i :: Union(FieldTerms(fields, j), tables[j], stars[j])
    {
      var f := ParseField(fields[i], LowOf(i), HighOf(i));
      match f {
        case Field(table, star) =>
          tables, stars := tables + [table], stars + [star];
        case SyntaxError =>
          assert FaultyField(fields, i);
          return Rejected;
        case IndexPanic =>
          assert FaultyField(fields, i);
          return Panicked;
      }
    }
    var s := Schedule(tables[0], tables[1], tables[2], tables[3], tables[4], stars[2], stars[4]);
    forall i: nat | i < 5
      ensures Bounded(tables[i], LowOf(i), HighOf(i))
    {
      UnionBounded(fields, i, tables[i], stars[i]);
    }
    r := Parsed(s);
  }

  /** Every expression parses to at most one result, so the three outcomes exclude one another. */
  lemma ParseUnique(expr: string, a: ParseResult, b: ParseResult)
    requires ParsesTo(expr, a) && ParsesTo(expr, b)
    ensures a == b
  {
    hide Fields, Terms, Clean;
    var fields := Fields(expr);
    if a.Parsed? && b.Parsed? {
      forall i: nat, ta, sa, tb, sb | i < 5 && Union(FieldTerms(fields, i), ta, sa) &&
                                      Union(FieldTerms(fields, i), tb, sb)
        ensures ta == tb && sa == sb
      {
        DenotationUnique(FieldTerms(fields, i), Field(ta, sa), Field(tb, sb));
      }
    }
  }

  /** The table of a list of terms. */
  ghost function TableOf(ts: seq<Term>): (table: seq<bool>)
    ensures |table| == TABLE_SIZE
    ensures (forall t | t in ts :: Clean(t)) ==> Union(ts, table, AllStar(ts))
  {
    seq(TABLE_SIZE, v => exists t :: t in ts && InTerm(t, v))
  }

  /** An expression whose five fields have only clean terms parses to their unions. */
  lemma CleanParses(expr: string) returns (s: Schedule)
    requires |Fields(expr)| == 5 && forall i: nat | i < 5 :: CleanField(Fields(expr), i)
    ensures ParsesTo(expr, Parsed(s))
  {
    hide Fields, Terms, Clean, AllStar;
    var f := Fields(expr);
    s := Schedule(TableOf(FieldTerms(f, 0)), TableOf(FieldTerms(f, 1)), TableOf(FieldTerms(f, 2)),
                  TableOf(FieldTerms(f, 3)), TableOf(FieldTerms(f, 4)),
                  AllStar(FieldTerms(f, 2)), AllStar(FieldTerms(f, 4)));
    hide TableOf;
    assert forall i: nat | i < 5 :: CleanField(f, i);
    assert CleanField(f, 0) && CleanField(f, 1) && CleanField(f, 2) && CleanField(f, 3) && CleanField(f, 4);
  }

  lemma ParsedIsWellFormed(expr: string, s: Schedule)
    requires ParsesTo(expr, Parsed(s))
    ensures WellFormed(s)
  {
    hide Fields, Terms, Bounded, Union, AllStar;
    var f := Fields(expr);
    UnionBounded(f, 0, s.minute, AllStar(FieldTerms(f, 0)));
    UnionBounded(f, 1, s.hour, AllStar(FieldTerms(f, 1)));
    UnionBounded(f, 2, s.dom, s.domStar);
    UnionBounded(f, 3, s.mon, AllStar(FieldTerms(f, 3)));
    UnionBounded(f, 4, s.dow, s.dowStar);
  }

  // ---- A step that wraps around ----

  lemma LargestIsRead()
    ensures Atoi("9223372036854775807") == Some(MAX_INT64)
  {
    ThreeDigits();
    hide Digits;
    DigitsAppendFour("922", '3', '3', '7', '2');
    assert "922" + ['3', '3', '7', '2'] == "9223372";
    DigitsAppendFour("9223372", '0', '3', '6', '8');
    assert "9223372" + ['0', '3', '6', '8'] == "92233720368";
    DigitsAppendFour("92233720368", '5', '4', '7', '7');
    assert "92233720368" + ['5', '4', '7', '7'] == "922337203685477";
    DigitsAppendFour("922337203685477", '5', '8', '0', '7');
    assert "922337203685477" + ['5', '8', '0', '7'] == "9223372036854775807";
  }

  lemma ThreeDigits()
    ensures Digits("922") == 922
  {
    assert "922"[..2] == "92" && "92"[..1] == "9";
    assert Digits("92") == 92;
  }

  const LARGEST_STEP: string := "1/9223372036854775807"

  /** The largest step that Atoi accepts makes the index behind value 1 wrap. */
  lemma LargestStepOverflows()
    ensures ParseTerm(LARGEST_STEP, 0, 59) == Range(1, 1, MAX_INT64, false)
    ensures Overflows(Range(1, 1, MAX_INT64, false))
  {
    LargestIsRead();
    assert IndexOf(LARGEST_STEP, '/') == 1 by {
      assert LARGEST_STEP[1..][0] == '/';
    }
    assert LARGEST_STEP[2..] == "9223372036854775807" && LARGEST_STEP[..1] == "1";
    OneIsRead();
    hide Atoi, IndexOf;
  }

  lemma OneIsRead()
    ensures Atoi("1") == Some(1)
  {
    assert "1"[..0] == "";
  }

  /** Every expression of five fields whose minute is such a step panics, and has no other outcome. */
  lemma LargestStepPanics(expr: string, r: ParseResult)
    requires |Fields(expr)| == 5 && Fields(expr)[0] == LARGEST_STEP
    ensures ParsesTo(expr, r) <==> r == Panicked
  {
    LargestStepTerms();
    hide Fields, ParseTerm, Terms, LARGEST_STEP;
    var fields := Fields(expr);
    var ts := FieldTerms(fields, 0);
    assert FirstFault(ts, 0) && ts[0] in ts;
    assert FaultyField(fields, 0);
    if ParsesTo(expr, r) {
      ParseUnique(expr, r, Panicked);
    }
  }

  lemma LargestStepTerms()
    ensures Terms(LARGEST_STEP, 0, 59) == [Range(1, 1, MAX_INT64, false)]
  {
    LargestStepText();
    LargestStepOverflows();
    hide ParseTerm, LARGEST_STEP;
    OneTerm(LARGEST_STEP, 0, 59);
  }

  lemma OneTerm(field: string, lo: int, hi: int)
    requires lo <= hi && ',' !in field
    ensures Terms(field, lo, hi) == [ParseTerm(field, lo, hi)]
  {
    SplitOnNothing(field, ',');
  }

  /** There is such an expression. */
  lemma LargestStepExample() returns (expr: string)
    ensures |Fields(expr)| == 5 && Fields(expr)[0] == LARGEST_STEP
  {
    var words := [LARGEST_STEP, "*", "*", "*", "*"];
    expr := JoinWith(words, ' ');
    hide Fields, JoinWith, IsSpace;
    assert forall w | w in words :: IsWord(w) by {
      LargestStepText();
    }
    FieldsOfJoin(words);
  }

  lemma LargestStepText()
    ensures IsWord(LARGEST_STEP) && IsWord("*") && ',' !in LARGEST_STEP
  {
    assert forall c | c in LARGEST_STEP :: '/' <= c <= '9';
  }

  /** Members lie in [lo, hi], and there is at least one. */
  ghost predicate Bounded(table: seq<bool>, lo: int, hi: int)
  {
    && |table| == TABLE_SIZE
    && (forall v | 0 <= v < TABLE_SIZE && table[v] :: lo <= v <= hi)
    && (exists v :: 0 <= v < TABLE_SIZE && table[v])
  }

  /** What every parsed schedule satisfies. */
  ghost predicate WellFormed(s: Schedule)
  {
    && Bounded(s.minute, 0, 59)
    && Bounded(s.hour, 0, 23)
    && Bounded(s.dom, 1, 31)
    && Bounded(s.mon, 1, 12)
    && Bounded(s.dow, 0, 6)
  }

  lemma UnionBounded(fields: seq<string>, i: nat, table: seq<bool>, star: bool)
    requires i < 5 && i < |fields|
    requires Union(FieldTerms(fields, i), table, star)
    ensures Bounded(table, LowOf(i), HighOf(i))
  {
    var ts := FieldTerms(fields, i);
    var t := ts[0];
    assert t in ts;
    assert 0 % t.step == 0 by { DivUnique(0, t.step, 0, 0); }
    assert InTerm(t, t.first);
    assert table[t.first];
  }
}
