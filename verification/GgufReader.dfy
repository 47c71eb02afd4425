/** The GGUF metadata reader as a cursor over a byte stream (go/internal/gguf/gguf.go). Every method
    is tied to the function of the same name in GgufParse or GgufScan; after a failed read the cursor
    may be anywhere, since the caller gives up. */
module GgufReader {
  import opened Wrappers
  import opened GgufFormat
  import opened GgufMetadata
  import opened GgufParse
  import opened GgufScan

  class Reader {
    const data: seq<byte>
    var pos: nat

    constructor (data: seq<byte>)
      ensures this.data == data && pos == 0 && Valid()
    {
      this.data := data;
      pos := 0;
    }

    ghost predicate Valid()
      reads this
    {
      pos <= |data|
    }

    /** The outcome of a read that began at start. */
    ghost predicate Agrees<T(!new)>(spec: Parsed<T>, r: Option<T>)
      reads this
    {
      match spec
      case Fail => r.None?
      case Got(v, next) => r == Some(v) && pos == next
    }

    ghost predicate Skips(spec: Option<nat>, ok: bool)
      reads this
    {
      match spec
      case None => !ok
      case Some(next) => ok && pos == next
    }

    /** binary.Read of a k-byte little-endian unsigned integer. */
    method ReadUint(k: nat) returns (r: Option<nat>)
      requires Valid()
      modifies this
      ensures Valid() && Agrees(GgufParse.ReadUint(data, old(pos), k), r)
    {
      var v: nat, shift: nat, i := 0, 1, 0;
      while i < k
        invariant 0 <= i <= k && Valid() && pos == old(pos) + i
        invariant shift == Power256(i)
        invariant v == FromLE(data[old(pos)..pos])
      {
        if pos == |data| {
          return None;
        }
        AppendByte(data[old(pos)..pos], data[pos]);
        assert data[old(pos)..pos + 1] == data[old(pos)..pos] + [data[pos]];
        v := v + shift * data[pos];
        shift := 256 * shift;
        pos := pos + 1;
        i := i + 1;
      }
      return Some(v);
    }

    /** io.CopyN to io.Discard. */
    method Discard(n: nat) returns (ok: bool)
      requires Valid()
      modifies this
      ensures Valid() && Skips(GgufParse.Discard(data, old(pos), n), ok)
    {
      if pos + n <= |data| {
        pos := pos + n;
        return true;
      }
      pos := |data|;
      return false;
    }

    method ReadString(fs: nat) returns (r: Option<string>)
      requires Valid()
      modifies this
      ensures Valid() && Agrees(GgufParse.ReadString(data, old(pos), fs), r)
    {
      hide WrapInt64, FromLE, TextOf, Power256;
      var n := ReadUint(8);
      if n.None? || WrapInt64(n.value) < 0 || WrapInt64(n.value) > fs {
        return None;
      }
      var len := WrapInt64(n.value);
      var start := pos;
      var ok := Discard(len);
      if !ok {
        return None;
      }
      return Some(if n.value > MAX_KEPT_STRING then "" else TextOf(data[start..start + len]));
    }

    method SkipString(fs: nat) returns (ok: bool)
      requires Valid()
      modifies this
      ensures Valid() && Skips(GgufParse.SkipString(data, old(pos), fs), ok)
    {
      var n := ReadUint(8);
      if n.None? || WrapInt64(n.value) < 0 || WrapInt64(n.value) > fs {
        return false;
      }
      ok := Discard(WrapInt64(n.value));
    }

    method TypedUint(ty: nat, conv: (nat, nat) -> nat) returns (r: Option<nat>)
      requires Valid()
      modifies this
      ensures Valid() && Agrees(GgufParse.TypedUint(data, old(pos), ty, conv), r)
    {
      if !IsNumeric(ty) {
        return None;
      }
      var raw := ReadUint(ScalarSize(ty));
      if raw.None? {
        return None;
      }
      return Some(Widen(ty, raw.value, conv));
    }

    method Ints(ty: nat, count: nat, conv: (nat, nat) -> nat) returns (r: Option<seq<int>>)
      requires Valid()
      modifies this
      ensures Valid() && Agrees(GgufParse.Ints(data, old(pos), ty, count, conv), r)
    {
      var out: seq<int> := [];
      var i := 0;
      PrependNothing(GgufParse.Ints(data, pos, ty, count, conv));
      while i < count
        invariant 0 <= i <= count && Valid()
        invariant GgufParse.Ints(data, old(pos), ty, count, conv) ==
                  Prepend(out, GgufParse.Ints(data, pos, ty, count - i, conv))
      {
        var u := TypedUint(ty, conv);
        if u.None? {
          return None;
        }
        PrependTwice(out, [WrapInt64(u.value)], GgufParse.Ints(data, pos, ty, count - i - 1, conv));
        out := out + [WrapInt64(u.value)];
        i := i + 1;
      }
      assert out + [] == out;
      return Some(out);
    }

    method UintOrArray(ty: nat, fs: nat, conv: (nat, nat) -> nat) returns (r: Option<seq<int>>)
      requires Valid()
      modifies this
      ensures Valid() && Agrees(GgufParse.UintOrArray(data, old(pos), ty, fs, conv), r)
    {
      if ty != ARRAY {
        var u := TypedUint(ty, conv);
        return if u.Some? then Some([WrapInt64(u.value)]) else None;
      }
      var elemType := ReadUint(4);
      if elemType.None? {
        return None;
      }
      var count := ReadUint(8);
      if count.None? || count.value > MAX_LAYER_ARRAY || !IsNumeric(elemType.value) ||
         count.value * ScalarSize(elemType.value) > fs {
        return None;
      }
      r := Ints(elemType.value, count.value, conv);
    }

    method Bools(count: nat) returns (r: Option<seq<bool>>)
      requires Valid()
      modifies this
      ensures Valid() && Agrees(GgufParse.Bools(data, old(pos), count), r)
    {
      var out: seq<bool> := [];
      var i := 0;
      PrependNothing(GgufParse.Bools(data, pos, count));
      while i < count
        invariant 0 <= i <= count && Valid()
        invariant GgufParse.Bools(data, old(pos), count) == Prepend(out, GgufParse.Bools(data, pos, count - i))
      {
        var b := ReadUint(1);
        if b.None? {
          return None;
        }
        PrependTwice(out, [b.value != 0], GgufParse.Bools(data, pos, count - i - 1));
        out := out + [b.value != 0];
        i := i + 1;
      }
      assert out + [] == out;
      return Some(out);
    }

    method BoolArray(ty: nat, fs: nat) returns (r: Option<seq<bool>>)
      requires Valid()
      modifies this
      ensures Valid() && Agrees(GgufParse.BoolArray(data, old(pos), ty, fs), r)
    {
      if ty != ARRAY {
        return None;
      }
      var elemType := ReadUint(4);
      if elemType.None? || elemType.value != BOOL {
        return None;
      }
      var count := ReadUint(8);
      if count.None? || count.value > MAX_LAYER_ARRAY || count.value > fs {
        return None;
      }
      r := Bools(count.value);
    }

    /** Recursive, as the source is, for arrays nested to any depth. */
    method SkipValue(ty: nat, fs: nat) returns (ok: bool)
      requires Valid()
      modifies this
      ensures Valid() && Skips(GgufParse.SkipValue(data, old(pos), ty, fs), ok)
      decreases |data| - pos, 0
    {
      if ScalarSize(ty) > 0 {
        ok := Discard(ScalarSize(ty));
      } else if ty == STRING {
        ok := SkipString(fs);
      } else if ty == ARRAY {
        var elemType := ReadUint(4);
        if elemType.None? {
          return false;
        }
        var count := ReadUint(8);
        if count.None? {
          return false;
        }
        ok := SkipElements(elemType.value, count.value, fs);
      } else {
        ok := false;
      }
    }

    method SkipElements(ty: nat, count: nat, fs: nat) returns (ok: bool)
      requires Valid()
      modifies this
      ensures Valid() && Skips(GgufParse.SkipElements(data, old(pos), ty, count, fs), ok)
      decreases |data| - pos, 2
    {
      hide GgufParse.SkipStrings, GgufParse.SkipArrays, ArrayBytes, WrapInt64;
      if ScalarSize(ty) > 0 {
        var total := ArrayBytes(count, ScalarSize(ty));
        if total < 0 || total > fs {
          return false;
        }
        ok := Discard(total);
      } else if (ty != STRING && ty != ARRAY) || WrapInt64(count) < 0 || WrapInt64(count) > fs {
        ok := false;
      } else if ty == STRING {
        ok := SkipStrings(count, fs);
      } else {
        ok := SkipArrays(count, fs);
      }
    }

    method SkipStrings(count: nat, fs: nat) returns (ok: bool)
      requires Valid()
      modifies this
      ensures Valid() && Skips(GgufParse.SkipStrings(data, old(pos), count, fs), ok)
    {
      hide GgufParse.SkipString;
      var i := 0;
      while i < count
        invariant 0 <= i <= count && Valid()
        invariant GgufParse.SkipStrings(data, old(pos), count, fs) ==
                  GgufParse.SkipStrings(data, pos, count - i, fs)
      {
        ok := SkipString(fs);
        if !ok {
          return;
        }
        i := i + 1;
      }
      return true;
    }

    method SkipArrays(count: nat, fs: nat) returns (ok: bool)
      requires Valid()
      modifies this
      ensures Valid() && Skips(GgufParse.SkipArrays(data, old(pos), count, fs), ok)
      decreases |data| - pos, 1
    {
      hide GgufParse.SkipValue;
      var i := 0;
      while i < count
        invariant 0 <= i <= count && Valid() && old(pos) <= pos
        invariant GgufParse.SkipArrays(data, old(pos), count, fs) ==
                  GgufParse.SkipArrays(data, pos, count - i, fs)
      {
        ok := SkipValue(ARRAY, fs);
        if !ok {
          return;
        }
        i := i + 1;
      }
      return true;
    }

    method ReadPayload(kind: Kind, ty: nat, fs: nat, conv: (nat, nat) -> nat) returns (r: Option<Payload>)
      requires Valid()
      modifies this
      ensures Valid() && Agrees(GgufScan.ReadPayload(data, old(pos), kind, ty, fs, conv), r)
    {
      hide GgufParse.ReadString, GgufParse.UintOrArray, GgufParse.BoolArray, GgufParse.SkipValue, GgufParse.TypedUint;
      match kind {
        case Architecture | Name =>
          if ty != STRING {
            return None;
          }
          var s := ReadString(fs);
          return if s.Some? then Some(Str(s.value)) else None;
        case PerArch(HeadCountKV, _) =>
          var xs := UintOrArray(ty, fs, conv);
          return if xs.Some? then Some(IntList(xs.value)) else None;
        case PerArch(SlidingWindowPattern, _) =>
          var bs := BoolArray(ty, fs);
          return if bs.Some? then Some(BoolList(bs.value)) else None;
        case Other =>
          var ok := SkipValue(ty, fs);
          return if ok then Some(Skipped) else None;
        case _ =>
          var u := TypedUint(ty, conv);
          return if u.Some? then Some(Uint(u.value)) else None;
      }
    }

    /** One turn of readAll's loop, up to the staging. */
    method ReadPair(fs: nat, conv: (nat, nat) -> nat) returns (r: Option<Kept>)
      requires Valid()
      modifies this
      ensures Valid() && Agrees(PairAt(data, old(pos), fs, conv), r)
    {
      hide KindOf, GgufScan.ReadPayload, GgufParse.ReadString;
      var key := ReadString(fs);
      if key.None? {
        return None;
      }
      var ty := ReadUint(4);
      if ty.None? {
        return None;
      }
      var payload := ReadPayload(KindOf(key.value), ty.value, fs, conv);
      return if payload.Some? then Some(Kept(key.value, payload.value)) else None;
    }

    /** The loop over the pairs, filling the staging. */
    method ScanPairs(count: nat, fs: nat, conv: (nat, nat) -> nat) returns (r: Option<Staging>)
      requires Valid()
      modifies this
      ensures Valid() && Agrees(Scan(data, old(pos), count, NOTHING, fs, conv), r)
    {
      hide Store, PairAt, KindOf;
      var st := NOTHING;
      var i := 0;
      while i < count
        invariant 0 <= i <= count && Valid()
        invariant Scan(data, old(pos), count, NOTHING, fs, conv) == Scan(data, pos, count - i, st, fs, conv)
      {
        ghost var at := pos;
        var kv := ReadPair(fs, conv);
        if kv.None? {
          return None;
        }
        assert PairAt(data, at, fs, conv) == Got(kv.value, pos);
        st := Store(st, kv.value.key, kv.value.payload);
        i := i + 1;
      }
      return Some(st);
    }

    method ReadAll(fs: nat, conv: (nat, nat) -> nat) returns (r: Outcome)
      requires Valid() && pos == 0
      modifies this
      ensures Valid() && r == GgufScan.ReadAll(data, fs, conv)
      ensures r.Read? ==> pos == r.next
    {
      hide Finish, FinishPanics, Scan;
      var magic := ReadUint(4);
      if magic.None? || magic.value != MAGIC {
        return Refused;
      }
      var version := ReadUint(4);
      if version.None? || version.value < 2 || version.value > 3 {
        return Refused;
      }
      var tensors := ReadUint(8);
      if tensors.None? {
        return Refused;
      }
      var count := ReadUint(8);
      if count.None? || count.value > MAX_KV_COUNT {
        return Refused;
      }
      var st := ScanPairs(count.value, fs, conv);
      if st.None? {
        return Refused;
      }
      return if FinishPanics(st.value) then Panicked else Read(Finish(st.value), pos);
    }
  }

  lemma {:induction false} AppendByte(bs: seq<byte>, b: byte)
    ensures FromLE(bs + [b]) == FromLE(bs) + Power256(|bs|) * b
  {
    if bs != [] {
      AppendByte(bs[1..], b);
      assert (bs + [b])[1..] == bs[1..] + [b];
      ghost var p := Power256(|bs[1..]|);
      assert Power256(|bs|) == 256 * p;
      assert 256 * (p * b) == (256 * p) * b;
    }
  }

  lemma PrependNothing<T>(r: Parsed<seq<T>>)
    ensures Prepend([], r) == r
  {
    if r.Got? {
      assert [] + r.value == r.value;
    }
  }

  lemma PrependTwice<T>(xs: seq<T>, ys: seq<T>, r: Parsed<seq<T>>)
    ensures Prepend(xs, Prepend(ys, r)) == Prepend(xs + ys, r)
  {
    if r.Got? {
      assert xs + (ys + r.value) == xs + ys + r.value;
    }
  }
}
