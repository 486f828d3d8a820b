/** The protobuf wire format: what a byte sequence means, as functions on the bytes that remain. */
module Wire {
  import opened Bytes

  const TWO32: int := 0x1_0000_0000

  function Pow2(n: nat): (p: nat)
    ensures p > 0
  {
    if n == 0 then 1 else 2 * Pow2(n - 1)
  }

  /** The signed 32-bit reading of the low bits. */
  function Int32(x: nat): int {
    var y := x % TWO32;
    if y < TWO32 / 2 then y else y - TWO32
  }

  /** The signed 64-bit reading of an unsigned one; the sum of two lengths wraps around in the same way. */
  function Int64(x: nat): int
    requires x < TWO64
  {
    if x < TWO63 then x else x - TWO64
  }

  /** Both readings keep the low bits and lie in the range of a signed word. */
  lemma SignedWords(x: nat)
    requires x < TWO64
    ensures -(TWO32 / 2) <= Int32(x) < TWO32 / 2 && (x - Int32(x)) % TWO32 == 0
    ensures -TWO63 <= Int64(x) < TWO63 && (x - Int64(x)) % TWO64 == 0
  {
    var y := x / TWO32;
    assert x - Int32(x) == y * TWO32 || x - Int32(x) == (y + 1) * TWO32;
  }

  // ---- varints -------------------------------------------------------------------------------------

  /** Base 128, low group first, the high bit set on every byte but the last. */
  function Varint(v: nat): (s: Text)
    ensures |s| >= 1
    decreases v
  {
    if v < 128 then [v] else [v % 128 + 128] + Varint(v / 128)
  }

  /** The value and the bytes behind a varint, in 64-bit arithmetic, of at most ten bytes. */
  function GetVarint(d: Text, shift: nat, acc: nat): (r: Option<(nat, Text)>)
    ensures r.Some? ==> |r.value.1| < |d| && r.value.0 < TWO64
    decreases |d|
  {
    if shift >= 64 || d == [] then None
    else
      var acc' := (acc + d[0] % 128 * Pow2(shift)) % TWO64;
      if d[0] < 128 then Some((acc', d[1..])) else GetVarint(d[1..], shift + 7, acc')
  }

  function BitLen(x: nat): nat {
    if x == 0 then 0 else 1 + BitLen(x / 2)
  }

  /** The encoder's formula for the length of a varint. */
  function Sov(x: nat): nat {
    (BitLen(if x % 2 == 0 then x + 1 else x) + 6) / 7
  }

  lemma BitLen128(x: nat)
    requires x >= 128
    ensures BitLen(x) == 7 + BitLen(x / 128)
  {
    var a := x / 2;
    var b := a / 2;
    var c := b / 2;
    var d := c / 2;
    var e := d / 2;
    var f := e / 2;
    assert f / 2 == x / 128 && f >= 1;
    assert BitLen(x) == 1 + BitLen(a) && BitLen(a) == 1 + BitLen(b);
    assert BitLen(b) == 1 + BitLen(c) && BitLen(c) == 1 + BitLen(d);
    assert BitLen(d) == 1 + BitLen(e) && BitLen(e) == 1 + BitLen(f);
  }

  lemma BitLenSmall(x: nat)
    requires 1 <= x < 128
    ensures 1 <= BitLen(x) <= 7
  {
    var a := x / 2;
    var b := a / 2;
    var c := b / 2;
    var d := c / 2;
    var e := d / 2;
    var f := e / 2;
    assert f / 2 == 0;
    assert BitLen(x) == 1 + BitLen(a) && BitLen(a) <= 1 + BitLen(b) && BitLen(b) <= 1 + BitLen(c);
    assert BitLen(c) <= 1 + BitLen(d) && BitLen(d) <= 1 + BitLen(e) && BitLen(e) <= 1 + BitLen(f);
  }

  /** Setting the lowest bit changes the length of nothing but zero. */
  lemma BitLenOdd(x: nat)
    requires x >= 2
    ensures BitLen(if x % 2 == 0 then x + 1 else x) == BitLen(x)
  {
    assert (x + 1) / 2 == x / 2 || x % 2 == 1;
  }

  /** The length formula counts the bytes that encoding writes. */
  lemma {:induction false} SovIsLength(x: nat)
    ensures Sov(x) == |Varint(x)|
    decreases x
  {
    var odd := if x % 2 == 0 then x + 1 else x;
    if x < 128 {
      BitLenSmall(odd);
    } else {
      SovIsLength(x / 128);
      BitLenOdd(x);
      BitLen128(x);
      var y := x / 128;
      if y >= 2 {
        BitLenOdd(y);
      } else {
        assert BitLen(1) == 1;
      }
    }
  }

  lemma {:induction false} Pow2Add(a: nat, b: nat)
    ensures Pow2(a + b) == Pow2(a) * Pow2(b)
    decreases a
  {
    if a > 0 {
      Pow2Add(a - 1, b);
    }
  }

  lemma Pow2Seven(n: nat)
    ensures Pow2(n + 7) == 128 * Pow2(n)
  {
    Pow2Add(7, n);
    assert Pow2(7) == 128;
  }

  lemma Pow2Eight(n: nat)
    ensures Pow2(n + 8) == 256 * Pow2(n)
  {
    Pow2Seven(n);
    assert Pow2(n + 8) == 2 * Pow2(n + 7);
  }

  lemma Pow2At64()
    ensures Pow2(64) == TWO64 && Pow2(63) == TWO63
  {
    Pow2Eight(0);
    Pow2Eight(8);
    Pow2Eight(16);
    Pow2Eight(24);
    Pow2Eight(32);
    Pow2Eight(40);
    Pow2Eight(48);
    Pow2Eight(56);
    assert Pow2(64) == 2 * Pow2(63);
  }

  lemma {:induction false} Pow2Mono(a: nat, b: nat)
    requires a <= b
    ensures Pow2(a) <= Pow2(b)
    decreases b
  {
    if a < b {
      Pow2Mono(a, b - 1);
    }
  }

  lemma SplitLow(v: nat, p: nat)
    ensures v * p == v % 128 * p + v / 128 * (128 * p)
  {
    var low, high := v % 128, v / 128;
    assert v == low + 128 * high;
    assert (low + 128 * high) * p == low * p + 128 * high * p;
  }

  lemma ProductBound(v: nat, shift: nat)
    requires v >= 128
    ensures shift + 7 >= 64 ==> v * Pow2(shift) >= TWO64
  {
    if shift + 7 >= 64 {
      assert 128 * Pow2(shift) >= TWO64 by {
        Pow2At64();
        Pow2Mono(64, shift + 7);
        Pow2Seven(shift);
      }
      MulMono(128, v, Pow2(shift));
    }
  }

  lemma NoWrap(x: nat)
    requires x < TWO64
    ensures x % TWO64 == x
  {
  }

  /** Reading one byte of a varint, where `acc'` is what has been read with it. */
  lemma ReadByte(b: byte, tail: Text, shift: nat, acc: nat, acc': nat)
    requires shift <= 63 && acc' == acc + b % 128 * Pow2(shift) && acc' < TWO64
    ensures GetVarint([b] + tail, shift, acc) ==
              if b < 128 then Some((acc', tail)) else GetVarint(tail, shift + 7, acc')
  {
    var d := [b] + tail;
    assert d[0] == b && d[1..] == tail;
    NoWrap(acc');
  }

  lemma LastByte(v: nat, rest: Text, shift: nat, acc: nat)
    requires v < 128 && shift <= 63 && acc + v * Pow2(shift) < TWO64
    ensures GetVarint(Varint(v) + rest, shift, acc) == Some((acc + v * Pow2(shift), rest))
  {
    assert v % 128 == v;
    ReadByte(v, rest, shift, acc, acc + v * Pow2(shift));
  }

  lemma FirstByte(v: nat, rest: Text, shift: nat, acc: nat) returns (acc': nat)
    requires v >= 128 && shift <= 63 && acc + v * Pow2(shift) < TWO64
    ensures shift + 7 <= 63 && acc' + (v / 128) * Pow2(shift + 7) == acc + v * Pow2(shift)
    ensures GetVarint(Varint(v) + rest, shift, acc) == GetVarint(Varint(v / 128) + rest, shift + 7, acc')
  {
    var low, high := v % 128, v / 128;
    SplitLow(v, Pow2(shift));
    Pow2Seven(shift);
    ProductBound(v, shift);
    MulMono(0, high, Pow2(shift + 7));
    acc' := acc + low * Pow2(shift);
    assert (low + 128) % 128 == low;
    ReadByte(low + 128, Varint(high) + rest, shift, acc, acc');
    assert Varint(v) + rest == [low + 128] + (Varint(high) + rest);
  }

  /** Decoding what was encoded, behind `acc` already read. */
  lemma {:induction false} VarintRoundTripFrom(v: nat, shift: nat, acc: nat, rest: Text)
    requires shift <= 63 && acc + v * Pow2(shift) < TWO64
    ensures GetVarint(Varint(v) + rest, shift, acc) == Some((acc + v * Pow2(shift), rest))
    decreases v
  {
    if v < 128 {
      LastByte(v, rest, shift, acc);
    } else {
      var acc' := FirstByte(v, rest, shift, acc);
      VarintRoundTripFrom(v / 128, shift + 7, acc', rest);
    }
  }

  lemma VarintRoundTrip(v: nat, rest: Text)
    requires v < TWO64
    ensures GetVarint(Varint(v) + rest, 0, 0) == Some((v, rest))
  {
    VarintRoundTripFrom(v, 0, 0, rest);
  }

  // ---- fields -----------------------------------------------------------------------------------------

  /** Past one field of any wire type, or past the rest of `depth` open groups. */
  function SkipField(d: Text, depth: nat): (r: Option<Text>)
    ensures r.Some? ==> |r.value| < |d|
    decreases |d|
  {
    match GetVarint(d, 0, 0)
    case None => None
    case Some((wire, r)) =>
      match SkipValue(wire % 8, r, depth)
      case None => None
      case Some((rest, open)) => if open == 0 then Some(rest) else SkipField(rest, open)
  }

  /** Past the value behind a tag, with the groups that are open then. */
  function SkipValue(wireType: nat, r: Text, depth: nat): (s: Option<(Text, nat)>)
    ensures s.Some? ==> |s.value.0| <= |r|
  {
    match wireType
    case 0 => (match GetVarint(r, 0, 0) case None => None case Some((_, rest)) => Some((rest, depth)))
    case 1 => if |r| >= 8 then Some((r[8..], depth)) else None
    case 2 =>
      (match GetVarint(r, 0, 0)
       case None => None
       case Some((n, rest)) => if n <= |rest| then Some((rest[n..], depth)) else None)
    case 3 => Some((r, depth + 1))
    case 4 => if depth == 0 then None else Some((r, depth - 1))
    case 5 => if |r| >= 4 then Some((r[4..], depth)) else None
    case _ => None
  }

  datatype Item = Known(num: int, payload: Text) | Unknown

  /** The next field of a message whose fields 1 to `max` are length-delimited. */
  function NextItem(d: Text, max: nat): (r: Option<(Item, Text)>)
    ensures r.Some? ==> |r.value.1| < |d|
    ensures r.Some? && r.value.0.Known? ==> 1 <= r.value.0.num <= max && |r.value.0.payload| < |d|
  {
    match GetVarint(d, 0, 0)
    case None => None
    case Some((wire, r)) =>
      var num, wireType := Int32(wire / 8), wire % 8;
      if wireType == 4 || num <= 0 then None
      else if num <= max then
        if wireType != 2 then None
        else
          match GetVarint(r, 0, 0)
          case None => None
          case Some((n, rest)) => if n <= |rest| then Some((Known(num, rest[..n]), rest[n..])) else None
      else
        match SkipField(d, 0)
        case None => None
        case Some(rest) => Some((Unknown, rest))
  }

  /** How a message takes in its fields: the highest field number and what a field does. */
  datatype Schema<!M> = Schema(max: nat, put: (M, int, Text) -> Option<M>)

  function Decode<M>(sch: Schema<M>, d: Text, m: M): Option<M>
    decreases |d|
  {
    if d == [] then Some(m)
    else
      match NextItem(d, sch.max)
      case None => None
      case Some((Unknown, rest)) => Decode(sch, rest, m)
      case Some((Known(num, payload), rest)) =>
        match sch.put(m, num, payload)
        case None => None
        case Some(m') => Decode(sch, rest, m')
  }

  // ---- bytes behind a field do not matter to it ----------------------------------------------------------

  lemma {:induction false} VarintExtends(d: Text, e: Text, shift: nat, acc: nat)
    requires GetVarint(d, shift, acc).Some?
    ensures var (v, r) := GetVarint(d, shift, acc).value; GetVarint(d + e, shift, acc) == Some((v, r + e))
    decreases |d|
  {
    assert (d + e)[1..] == d[1..] + e;
    if d[0] >= 128 {
      VarintExtends(d[1..], e, shift + 7, (acc + d[0] % 128 * Pow2(shift)) % TWO64);
    }
  }

  lemma ValueExtends(wireType: nat, r: Text, e: Text, depth: nat)
    requires SkipValue(wireType, r, depth).Some?
    ensures var (rest, open) := SkipValue(wireType, r, depth).value;
            SkipValue(wireType, r + e, depth) == Some((rest + e, open))
  {
    if wireType == 0 || wireType == 2 {
      VarintExtends(r, e, 0, 0);
      if wireType == 2 {
        var (n, rest) := GetVarint(r, 0, 0).value;
        assert (rest + e)[n..] == rest[n..] + e;
      }
    } else if wireType == 1 {
      assert (r + e)[8..] == r[8..] + e;
    } else if wireType == 5 {
      assert (r + e)[4..] == r[4..] + e;
    }
  }

  lemma {:induction false} SkipExtends(d: Text, e: Text, depth: nat)
    requires SkipField(d, depth).Some?
    ensures SkipField(d + e, depth) == Some(SkipField(d, depth).value + e)
    decreases |d|
  {
    VarintExtends(d, e, 0, 0);
    var (wire, r) := GetVarint(d, 0, 0).value;
    ValueExtends(wire % 8, r, e, depth);
    var (rest, open) := SkipValue(wire % 8, r, depth).value;
    if open != 0 {
      SkipExtends(rest, e, open);
    }
  }

  lemma ItemExtends(d: Text, e: Text, max: nat)
    requires NextItem(d, max).Some?
    ensures var (item, rest) := NextItem(d, max).value; NextItem(d + e, max) == Some((item, rest + e))
  {
    VarintExtends(d, e, 0, 0);
    var (wire, r) := GetVarint(d, 0, 0).value;
    if Int32(wire / 8) <= max {
      VarintExtends(r, e, 0, 0);
      var (n, rest) := GetVarint(r, 0, 0).value;
      assert (rest + e)[..n] == rest[..n] && (rest + e)[n..] == rest[n..] + e;
    } else {
      SkipExtends(d, e, 0);
    }
  }

  /** Decoding goes on behind a part that decodes by itself. */
  lemma {:induction false} DecodeAppend<M>(sch: Schema<M>, a: Text, b: Text, m: M)
    requires Decode(sch, a, m).Some?
    ensures Decode(sch, a + b, m) == Decode(sch, b, Decode(sch, a, m).value)
    decreases |a|
  {
    if a == [] {
      assert a + b == b;
    } else {
      ItemExtends(a, b, sch.max);
      match NextItem(a, sch.max).value
      case (Unknown, rest) =>
        DecodeAppend(sch, rest, b, m);
      case (Known(num, payload), rest) =>
        DecodeAppend(sch, rest, b, sch.put(m, num, payload).value);
    }
  }

  lemma UnknownFirst<M>(sch: Schema<M>, u: Text, b: Text, m: M)
    requires NextItem(u, sch.max) == Some((Unknown, []))
    ensures Decode(sch, u + b, m) == Decode(sch, b, m)
  {
    ItemExtends(u, b, sch.max);
    assert [] + b == b;
  }

  lemma Spliced<M>(sch: Schema<M>, a: Text, u: Text, b: Text, m: M)
    requires Decode(sch, a, m).Some? && NextItem(u, sch.max) == Some((Unknown, []))
    ensures Decode(sch, a + (u + b), m) == Decode(sch, a + b, m)
  {
    DecodeAppend(sch, a, b, m);
    DecodeAppend(sch, a, u + b, m);
    UnknownFirst(sch, u, b, Decode(sch, a, m).value);
  }
}
