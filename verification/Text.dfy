/** The parts of Go's strings and strconv packages that the parsers rely on. */
module Text {
  import opened Wrappers

  /** Index of the first occurrence of c, or |s| when there is none. */
  function IndexOf(s: string, c: char): (i: nat)
    ensures i <= |s|
    ensures i < |s| ==> s[i] == c
    ensures forall j | 0 <= j < i :: s[j] != c
  {
    if s == [] || s[0] == c then 0 else 1 + IndexOf(s[1..], c)
  }

  /** strings.Split with a one-character separator: never empty. */
  function SplitOn(s: string, c: char): (parts: seq<string>)
    ensures |parts| >= 1
    ensures forall p | p in parts :: c !in p
    decreases |s|
  {
    var i := IndexOf(s, c);
    if i == |s| then [s] else [s[..i]] + SplitOn(s[i + 1..], c)
  }

  /** Inverse of SplitOn. */
  function JoinWith(parts: seq<string>, c: char): string
  {
    if parts == [] then []
    else if |parts| == 1 then parts[0]
    else parts[0] + [c] + JoinWith(parts[1..], c)
  }

  lemma {:induction false} SplitOnJoins(s: string, c: char)
    ensures JoinWith(SplitOn(s, c), c) == s
    decreases |s|
  {
    hide IndexOf;
    var i := IndexOf(s, c);
    if i < |s| {
      SplitOnJoins(s[i + 1..], c);
      assert SplitOn(s, c)[1..] == SplitOn(s[i + 1..], c);
      assert s == s[..i] + [c] + s[i + 1..];
    }
  }

  /** unicode.IsSpace. */
  predicate IsSpace(c: char)
  {
    || '\t' <= c <= '\r' || c == ' '
    || c as int in {0x85, 0xA0, 0x1680, 0x2028, 0x2029, 0x202F, 0x205F, 0x3000}
    || 0x2000 <= c as int <= 0x200A
  }

  /** Length of the leading run of characters that are, or are not, spaces. */
  function RunLength(s: string, space: bool): (n: nat)
    ensures n <= |s|
    ensures forall j | 0 <= j < n :: IsSpace(s[j]) == space
    ensures n < |s| ==> IsSpace(s[n]) != space
  {
    if s == [] || IsSpace(s[0]) != space then 0 else 1 + RunLength(s[1..], space)
  }

  /** strings.Fields: the maximal runs of non-space characters, in order. */
  function Fields(s: string): (words: seq<string>)
    ensures forall w | w in words :: w != [] && forall c | c in w :: !IsSpace(c)
    decreases |s|
  {
    var t := s[RunLength(s, true)..];
    if t == [] then []
    else
      var n := RunLength(t, false);
      [t[..n]] + Fields(t[n..])
  }

  /** A word as Fields returns it. */
  predicate IsWord(w: string)
  {
    w != [] && forall c | c in w :: !IsSpace(c)
  }

  lemma {:induction false} RunOfWord(w: string, rest: string)
    requires (forall c | c in w :: !IsSpace(c)) && (rest == [] || IsSpace(rest[0]))
    ensures RunLength(w + rest, false) == |w|
  {
    if w != [] {
      RunOfWord(w[1..], rest);
      assert (w + rest)[1..] == w[1..] + rest;
      assert (w + rest)[0] == w[0] && w[0] in w;
    } else {
      assert w + rest == rest;
    }
  }

  lemma FirstWord(w: string, rest: string)
    requires IsWord(w) && (rest == [] || IsSpace(rest[0]))
    ensures Fields(w + rest) == [w] + Fields(rest) && Fields([' '] + (w + rest)) == Fields(w + rest)
  {
    hide IsSpace;
    var s := w + rest;
    assert s[0] == w[0] && w[0] in w;
    RunOfWord(w, rest);
    assert RunLength(s, true) == 0 && s[0..] == s;
    assert s[..|w|] == w && s[|w|..] == rest;
    LeadingSpace(s);
  }

  lemma LeadingSpace(s: string)
    requires s != [] && !IsSpace(s[0])
    ensures Fields([' '] + s) == Fields(s)
  {
    assert ([' '] + s)[1..] == s;
    assert RunLength(s, true) == 0 && s[0..] == s;
    assert RunLength([' '] + s, true) == 1;
  }

  /** Words joined by single spaces are read back. */
  lemma {:induction false} FieldsOfJoin(words: seq<string>)
    requires forall w | w in words :: IsWord(w)
    ensures Fields(JoinWith(words, ' ')) == words
    ensures words != [] ==> Fields([' '] + JoinWith(words, ' ')) == words
    decreases |words|
  {
    hide IsWord, Fields;
    if words == [] {
      FieldsOfNothing();
    } else {
      var rest := if |words| == 1 then [] else [' '] + JoinWith(words[1..], ' ');
      assert JoinWith(words, ' ') == words[0] + rest;
      FirstWord(words[0], rest);
      FieldsOfJoin(words[1..]);
      FieldsOfNothing();
    }
  }

  lemma FieldsOfNothing()
    ensures Fields([]) == []
  {
  }

  /** A text without the separator is one part. */
  lemma SplitOnNothing(s: string, c: char)
    requires c !in s
    ensures SplitOn(s, c) == [s]
  {
  }

  predicate IsDigit(c: char) { '0' <= c <= '9' }

  function DigitValue(c: char): (d: nat)
    requires IsDigit(c)
    ensures d <= 9
  {
    c as int - '0' as int
  }

  /** Value of a string of decimal digits. */
  function Digits(s: string): nat
    requires forall c | c in s :: IsDigit(c)
  {
    if s == [] then 0 else 10 * Digits(s[..|s| - 1]) + DigitValue(s[|s| - 1])
  }

  lemma DigitsAppend(s: string, d: char)
    requires IsDigit(d) && forall c | c in s :: IsDigit(c)
    ensures forall c | c in s + [d] :: IsDigit(c)
    ensures Digits(s + [d]) == 10 * Digits(s) + DigitValue(d)
  {
    assert (s + [d])[..|s|] == s;
  }

  lemma DigitsAppendFour(s: string, a: char, b: char, c: char, d: char)
    requires IsDigit(a) && IsDigit(b) && IsDigit(c) && IsDigit(d) && forall x | x in s :: IsDigit(x)
    ensures forall x | x in s + [a, b, c, d] :: IsDigit(x)
    ensures Digits(s + [a, b, c, d]) ==
            10000 * Digits(s) + 1000 * DigitValue(a) + 100 * DigitValue(b) + 10 * DigitValue(c) + DigitValue(d)
  {
    hide Digits;
    DigitsAppend(s, a);
    DigitsAppend(s + [a], b);
    DigitsAppend(s + [a] + [b], c);
    DigitsAppend(s + [a] + [b] + [c], d);
    assert s + [a] + [b] + [c] + [d] == s + [a, b, c, d];
  }

  /** strconv.Atoi: an optional sign, at least one digit, and a value that fits in 64 bits. */
  function Atoi(s: string): (r: Option<int>)
    ensures r.Some? ==> MIN_INT64 <= r.value <= MAX_INT64
  {
    var body := if s != [] && s[0] in {'+', '-'} then s[1..] else s;
    if body == [] || exists c | c in body :: !IsDigit(c) then None
    else
      var magnitude: int := Digits(body);
      var v := if s[0] == '-' then -magnitude else magnitude;
      if MIN_INT64 <= v <= MAX_INT64 then Some(v) else None
  }
}
