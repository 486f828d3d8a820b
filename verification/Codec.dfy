/** The generated marshallers: a buffer filled from the back, and a decoder that walks an index in
    64-bit integers. */
module Codec {
  import opened Bytes
  import opened ClassTraces
  import opened TransferSpec
  import opened Wire
  import opened Messages
  import Grammar

  datatype WireError =
    | IntOverflow
    | UnexpectedEof
    | InvalidLength
    | EndGroup
    | UnexpectedEndOfGroup
    | IllegalTag
    | WrongWireType
    | IllegalWireType

  // ---- writing -----------------------------------------------------------------------------------

  /** A buffer with `s` written at `lo`. */
  function Patch(b: Text, lo: nat, s: Text): (r: Text)
    requires lo + |s| <= |b|
    ensures |r| == |b|
  {
    b[..lo] + s + b[lo + |s|..]
  }

  lemma PatchJoin(b: Text, lo: nat, t: Text, s: Text)
    requires lo + |t| + |s| <= |b|
    ensures Patch(Patch(b, lo + |t|, s), lo, t) == Patch(b, lo, t + s)
  {
    var mid := lo + |t|;
    var p := Patch(b, mid, s);
    assert p[..mid] == b[..mid] && p[..mid][..lo] == p[..lo] && b[..mid][..lo] == b[..lo];
    assert p[mid..] == s + b[mid + |s|..];
  }

  lemma PatchNothing(b: Text, lo: nat)
    requires lo <= |b|
    ensures Patch(b, lo, []) == b
  {
    assert b[..lo] + [] + b[lo..] == b;
  }

  /** One more byte behind what is written. */
  lemma PatchByte(b: Text, lo: nat, s: Text, x: byte)
    requires lo + |s| < |b|
    ensures Patch(b, lo, s)[lo + |s| := x] == Patch(b, lo, s + [x])
  {
  }

  method WriteByte(buf: array<byte>, at: nat, x: byte, ghost b: Text, ghost lo: nat, ghost s: Text)
    requires lo + |s| == at < |b| == buf.Length && buf[..] == Patch(b, lo, s)
    modifies buf
    ensures buf[..] == Patch(b, lo, s + [x])
  {
    ghost var was := buf[..];
    buf[at] := x;
    assert buf[..] == was[at := x];
    PatchByte(b, lo, s, x);
  }

  lemma VarintStep(written: Text, rest: nat)
    requires rest >= 128
    ensures |Varint(rest)| == 1 + |Varint(rest / 128)|
    ensures written + Varint(rest) == (written + [rest % 128 + 128]) + Varint(rest / 128)
  {
    assert Varint(rest) == [rest % 128 + 128] + Varint(rest / 128);
    Associative(written, [rest % 128 + 128], Varint(rest / 128));
  }

  /** The loop of the encoder: seven bits at a time, low bits first. */
  method WriteVarint(buf: array<byte>, base: nat, v: nat)
    requires base + |Varint(v)| <= buf.Length
    modifies buf
    ensures buf[..] == Patch(old(buf[..]), base, Varint(v))
  {
    ghost var b := buf[..];
    ghost var written: Text := [];
    PatchNothing(b, base);
    var o, rest := base, v;
    while rest >= 128
      invariant o == base + |written| && |written| + |Varint(rest)| == |Varint(v)|
      invariant Varint(v) == written + Varint(rest)
      invariant buf[..] == Patch(b, base, written)
      decreases rest
    {
      VarintStep(written, rest);
      WriteByte(buf, o, rest % 128 + 128, b, base, written);
      written := written + [rest % 128 + 128];
      rest := rest / 128;
      o := o + 1;
    }
    WriteByte(buf, o, rest, b, base, written);
  }

  method EncodeVarint(buf: array<byte>, offset: nat, v: nat) returns (base: nat)
    requires |Varint(v)| <= offset <= buf.Length
    modifies buf
    ensures base == offset - |Varint(v)|
    ensures buf[..] == Patch(old(buf[..]), base, Varint(v))
  {
    SovIsLength(v);
    base := offset - Sov(v);
    WriteVarint(buf, base, v);
  }

  method CopyBytes(buf: array<byte>, lo: nat, data: Text)
    requires lo + |data| <= buf.Length
    modifies buf
    ensures buf[..] == Patch(old(buf[..]), lo, data)
  {
    forall k | 0 <= k < |data| {
      buf[lo + k] := data[k];
    }
    assert buf[lo..lo + |data|] == data;
    assert buf[..] == buf[..lo] + buf[lo..lo + |data|] + buf[lo + |data|..];
  }

  lemma PatchFront(b: Text, lo: nat, x: byte, s: Text)
    requires lo + 1 + |s| <= |b|
    ensures Patch(b, lo + 1, s)[lo := x] == Patch(b, lo, [x] + s)
  {
  }

  method PrependByte(buf: array<byte>, at: nat, x: byte, ghost b: Text, ghost later: Text)
    requires at + 1 + |later| <= |b| == buf.Length && buf[..] == Patch(b, at + 1, later)
    modifies buf
    ensures buf[..] == Patch(b, at, [x] + later)
  {
    ghost var was := buf[..];
    buf[at] := x;
    assert buf[..] == was[at := x];
    PatchFront(b, at, x, later);
  }

  /** The length and the tag in front of the contents of a field. `b` is the buffer before any writing
      and `later` what has been written from `end` on. */
  method PrependHeader(buf: array<byte>, end: nat, num: nat, size: nat, ghost b: Text, ghost later: Text)
    returns (i: nat)
    requires 1 <= num <= 15 && 1 + |Varint(size)| <= end && end + |later| <= |b| == buf.Length
    requires buf[..] == Patch(b, end, later)
    modifies buf
    ensures i == end - 1 - |Varint(size)|
    ensures buf[..] == Patch(b, i, [num * 8 + 2] + (Varint(size) + later))
  {
    i := EncodeVarint(buf, end, size);
    PatchJoin(b, i, Varint(size), later);
    i := i - 1;
    PrependByte(buf, i, num * 8 + 2, b, Varint(size) + later);
  }

  lemma FieldShape(num: nat, data: Text, later: Text)
    requires 1 <= num <= 15
    ensures FieldBytes(num, data) + later == [num * 8 + 2] + (Varint(|data|) + (data + later))
    ensures |FieldBytes(num, data)| == 1 + |Varint(|data|)| + |data|
  {
  }

  /** One length-delimited field in front of what is already there. */
  method PrependField(buf: array<byte>, end: nat, num: nat, data: Text, ghost b: Text, ghost later: Text)
    returns (i: nat)
    requires 1 <= num <= 15 && |FieldBytes(num, data)| <= end && end + |later| <= |b| == buf.Length
    requires buf[..] == Patch(b, end, later)
    modifies buf
    ensures i == end - |FieldBytes(num, data)|
    ensures buf[..] == Patch(b, i, FieldBytes(num, data) + later)
  {
    FieldShape(num, data, later);
    i := end - |data|;
    CopyBytes(buf, i, data);
    PatchJoin(b, i, data, later);
    i := PrependHeader(buf, i, num, |data|, b, data + later);
  }

  method PrependOptional(buf: array<byte>, end: nat, num: nat, data: Text, ghost b: Text, ghost later: Text)
    returns (i: nat)
    requires 1 <= num <= 15 && |Optional(num, data)| <= end && end + |later| <= |b| == buf.Length
    requires buf[..] == Patch(b, end, later)
    modifies buf
    ensures i == end - |Optional(num, data)|
    ensures buf[..] == Patch(b, i, Optional(num, data) + later)
  {
    if |data| > 0 {
      i := PrependField(buf, end, num, data, b, later);
    } else {
      i := end;
      assert [] + later == later;
    }
  }

  lemma RepeatedFrom(num: nat, items: seq<Text>, k: nat, later: Text)
    requires 1 <= num <= 15 && k < |items|
    ensures Repeated(num, items[k..]) + later == FieldBytes(num, items[k]) + (Repeated(num, items[k + 1..]) + later)
    ensures |Repeated(num, items[k..])| == |FieldBytes(num, items[k])| + |Repeated(num, items[k + 1..])|
  {
    assert items[k..][1..] == items[k + 1..];
  }

  lemma {:induction false} RepeatedSuffix(num: nat, items: seq<Text>, k: nat)
    requires 1 <= num <= 15 && k <= |items|
    ensures |Repeated(num, items[k..])| <= |Repeated(num, items)|
    decreases k
  {
    if k == 0 {
      assert items[0..] == items;
    } else {
      RepeatedFrom(num, items, k - 1, []);
      RepeatedSuffix(num, items, k - 1);
    }
  }

  /** The items of a repeated field, the last one first. */
  method PrependRepeated(buf: array<byte>, end: nat, num: nat, items: seq<Text>, ghost b: Text, ghost later: Text)
    returns (i: nat)
    requires 1 <= num <= 15 && |Repeated(num, items)| <= end && end + |later| <= |b| == buf.Length
    requires buf[..] == Patch(b, end, later)
    modifies buf
    ensures i == end - |Repeated(num, items)|
    ensures buf[..] == Patch(b, i, Repeated(num, items) + later)
  {
    i := end;
    var k := |items|;
    assert items[k..] == [] && [] + later == later;
    while k > 0
      invariant k <= |items|
      invariant i == end - |Repeated(num, items[k..])|
      invariant buf[..] == Patch(b, i, Repeated(num, items[k..]) + later)
    {
      k := k - 1;
      RepeatedFrom(num, items, k, later);
      RepeatedSuffix(num, items, k);
      i := PrependField(buf, i, num, items[k], b, Repeated(num, items[k + 1..]) + later);
    }
    assert items[0..] == items;
  }

  lemma TraceParts(t: ClassTrace, later: Text)
    ensures EncodeTrace(t) + later == Optional(1, t.path) + (Optional(2, t.base) + later)
    ensures TraceSize(t) == |EncodeTrace(t)| == |Optional(1, t.path)| + |Optional(2, t.base)|
  {
    TraceLength(t);
    Associative(Optional(1, t.path), Optional(2, t.base), later);
  }

  method MarshalTraceTo(buf: array<byte>, end: nat, t: ClassTrace, ghost b: Text, ghost later: Text) returns (i: nat)
    requires TraceSize(t) <= end && end + |later| <= |b| == buf.Length && buf[..] == Patch(b, end, later)
    modifies buf
    ensures i == end - TraceSize(t)
    ensures TraceSize(t) == |EncodeTrace(t)| && buf[..] == Patch(b, i, EncodeTrace(t) + later)
  {
    TraceParts(t, later);
    i := PrependOptional(buf, end, 2, t.base, b, later);
    i := PrependOptional(buf, i, 1, t.path, b, Optional(2, t.base) + later);
  }

  method MarshalTrace(t: ClassTrace) returns (d: Text)
    ensures d == EncodeTrace(t) && |d| == TraceSize(t)
  {
    var buf := new byte[TraceSize(t)];
    PatchNothing(buf[..], buf.Length);
    var i := MarshalTraceTo(buf, buf.Length, t, buf[..], []);
    return buf[i..];
  }

  method PrependAddresses(buf: array<byte>, end: nat, m: PacketData, ghost b: Text) returns (i: nat)
    requires end == buf.Length == |b| && buf[..] == b
    requires |Optional(5, m.sender) + Optional(6, m.receiver)| <= end
    modifies buf
    ensures i == end - |Optional(5, m.sender) + Optional(6, m.receiver)|
    ensures buf[..] == Patch(b, i, Optional(5, m.sender) + Optional(6, m.receiver))
  {
    PatchNothing(b, end);
    i := PrependOptional(buf, end, 6, m.receiver, b, []);
    assert Optional(6, m.receiver) + [] == Optional(6, m.receiver);
    i := PrependOptional(buf, i, 5, m.sender, b, Optional(6, m.receiver));
  }

  method PrependTokens(buf: array<byte>, end: nat, m: PacketData, ghost b: Text, ghost later: Text)
    returns (i: nat)
    requires |Repeated(3, m.tokenIds)| + |Repeated(4, m.tokenUris)| <= end && end + |later| <= |b| == buf.Length
    requires buf[..] == Patch(b, end, later)
    modifies buf
    ensures i == end - |Repeated(3, m.tokenIds)| - |Repeated(4, m.tokenUris)|
    ensures buf[..] == Patch(b, i, Repeated(3, m.tokenIds) + (Repeated(4, m.tokenUris) + later))
  {
    i := PrependRepeated(buf, end, 4, m.tokenUris, b, later);
    i := PrependRepeated(buf, i, 3, m.tokenIds, b, Repeated(4, m.tokenUris) + later);
  }

  method PrependClass(buf: array<byte>, end: nat, m: PacketData, ghost b: Text, ghost later: Text)
    returns (i: nat)
    requires |Optional(1, m.classId)| + |Optional(2, m.classUri)| <= end && end + |later| <= |b| == buf.Length
    requires buf[..] == Patch(b, end, later)
    modifies buf
    ensures i == end - |Optional(1, m.classId)| - |Optional(2, m.classUri)|
    ensures buf[..] == Patch(b, i, Optional(1, m.classId) + (Optional(2, m.classUri) + later))
  {
    i := PrependOptional(buf, end, 2, m.classUri, b, later);
    i := PrependOptional(buf, i, 1, m.classId, b, Optional(2, m.classUri) + later);
  }

  /** The encoding in the order in which it is written, from the back. */
  lemma PacketParts(m: PacketData) returns (addresses: Text, tokens: Text)
    ensures addresses == Optional(5, m.sender) + Optional(6, m.receiver)
    ensures tokens == Repeated(3, m.tokenIds) + (Repeated(4, m.tokenUris) + addresses)
    ensures EncodePacket(m) == Optional(1, m.classId) + (Optional(2, m.classUri) + tokens)
    ensures |EncodePacket(m)| == PacketSize(m)
  {
    PacketLength(m);
    PacketShape(Optional(1, m.classId), Optional(2, m.classUri), Repeated(3, m.tokenIds), Repeated(4, m.tokenUris),
                Optional(5, m.sender), Optional(6, m.receiver));
    addresses := Optional(5, m.sender) + Optional(6, m.receiver);
    tokens := Repeated(3, m.tokenIds) + (Repeated(4, m.tokenUris) + addresses);
  }

  method MarshalPacket(m: PacketData) returns (d: Text)
    ensures d == EncodePacket(m) && |d| == PacketSize(m)
  {
    ghost var addresses, tokens := PacketParts(m);
    var buf := new byte[PacketSize(m)];
    ghost var b := buf[..];
    var i := PrependAddresses(buf, buf.Length, m, b);
    i := PrependTokens(buf, i, m, b, addresses);
    i := PrependClass(buf, i, m, b, tokens);
    return buf[i..];
  }

  method MarshalTraces(buf: array<byte>, end: nat, ts: seq<ClassTrace>, ghost b: Text) returns (i: nat)
    requires |Repeated(2, EncodeTraces(ts))| <= end == |b| == buf.Length && buf[..] == b
    modifies buf
    ensures i == end - |Repeated(2, EncodeTraces(ts))|
    ensures buf[..] == Patch(b, i, Repeated(2, EncodeTraces(ts)))
  {
    ghost var items := EncodeTraces(ts);
    i := end;
    PatchNothing(b, i);
    var k := |ts|;
    assert items[k..] == [];
    while k > 0
      invariant k <= |ts|
      invariant i == end - |Repeated(2, items[k..])|
      invariant buf[..] == Patch(b, i, Repeated(2, items[k..]))
    {
      k := k - 1;
      ghost var later := Repeated(2, items[k + 1..]);
      RepeatedFrom(2, items, k, []);
      RepeatedSuffix(2, items, k);
      FieldShape(2, items[k], later);
      TraceLength(ts[k]);
      i := MarshalTraceTo(buf, i, ts[k], b, later);
      i := PrependHeader(buf, i, 2, TraceSize(ts[k]), b, items[k] + later);
      assert Repeated(2, items[k..]) == FieldBytes(2, items[k]) + later by {
        assert items[k..][1..] == items[k + 1..];
      }
    }
    assert items[0..] == items;
  }

  lemma GenesisParts(g: GenesisState) returns (traces: Text)
    ensures traces == Repeated(2, EncodeTraces(g.traces)) && EncodeGenesis(g) == Optional(1, g.portId) + traces
    ensures GenesisSize(g) == |EncodeGenesis(g)| == |Optional(1, g.portId)| + |traces|
  {
    GenesisLength(g);
    traces := Repeated(2, EncodeTraces(g.traces));
  }

  method MarshalGenesis(g: GenesisState) returns (d: Text)
    ensures d == EncodeGenesis(g) && |d| == GenesisSize(g)
  {
    ghost var traces := GenesisParts(g);
    var buf := new byte[GenesisSize(g)];
    ghost var b := buf[..];
    var i := MarshalTraces(buf, buf.Length, g.traces, b);
    i := PrependOptional(buf, i, 1, g.portId, b, traces);
    return buf[i..];
  }

  // ---- reading -----------------------------------------------------------------------------------------

  lemma Tail(d: Text, i: nat)
    requires i < |d|
    ensures d[i..][1..] == d[i + 1..] && d[i..][0] == d[i]
  {
  }

  /** All of these bytes say that another one follows. */
  ghost predicate Continues(d: Text, i: nat, j: nat) {
    j <= |d| && forall k :: i <= k < j ==> d[k] >= 128
  }

  /** Each loop over a varint in the decoders, in 64-bit arithmetic: ten bytes that go on are an overflow, and fewer up
      to the end of the data are an unexpected end. */
  method ReadVarint(d: Text, i: nat) returns (err: Option<WireError>, v: nat, j: nat)
    requires i <= |d|
    ensures err.None? ==> i < j <= |d| && GetVarint(d[i..], 0, 0) == Some((v, d[j..]))
    ensures err.Some? ==> GetVarint(d[i..], 0, 0).None?
    ensures err == Some(IntOverflow) <==> Continues(d, i, i + 10)
    ensures err == Some(UnexpectedEof) <==> |d| < i + 10 && Continues(d, i, |d|)
    ensures err.Some? ==> err.value == IntOverflow || err.value == UnexpectedEof
  {
    v, j := 0, i;
    var shift := 0;
    while true
      invariant i <= j <= |d| && shift == 7 * (j - i) && j <= i + 10
      invariant Continues(d, i, j)
      invariant GetVarint(d[i..], 0, 0) == GetVarint(d[j..], shift, v)
      decreases |d| - j
    {
      if shift >= 64 {
        return Some(IntOverflow), 0, j;
      }
      if j >= |d| {
        return Some(UnexpectedEof), 0, j;
      }
      Tail(d, j);
      var b := d[j];
      j := j + 1;
      v := (v + b % 128 * Pow2(shift)) % TWO64;
      if b < 128 {
        return None, v, j;
      }
      shift := shift + 7;
    }
  }

  /** A length and the end of the bytes it covers. Lengths are read as signed 64-bit integers. */
  method ReadLength(d: Text, i: nat) returns (err: Option<WireError>, start: nat, post: nat)
    requires i <= |d| < TWO63
    ensures err.None? ==>
              && i < start <= post <= |d|
              && GetVarint(d[i..], 0, 0) == Some((post - start, d[start..]))
    ensures err.Some? ==>
              var r := GetVarint(d[i..], 0, 0); r.None? || r.value.0 > |r.value.1|
  {
    var v;
    err, v, start := ReadVarint(d, i);
    if err.Some? {
      return err, start, 0;
    }
    var length := Int64(v);
    if length < 0 {
      return Some(InvalidLength), start, 0;
    }
    var end := Int64(start + length);
    if end < 0 {
      return Some(InvalidLength), start, 0;
    }
    if end > |d| {
      return Some(UnexpectedEof), start, 0;
    }
    return None, start, end;
  }

  /** What skipping found: the number of bytes, which may lie beyond the end of the data. */
  ghost predicate Skipped(d: Text, r: Result<int, WireError>) {
    match SkipField(d, 0)
    case Some(rest) => r == Ok(|d| - |rest|) && rest == d[|d| - |rest|..]
    case None => r.Ok? ==> r.value > |d|
  }

  /** A length inside the data is that of a well-formed field in front, and every such field is found. */
  ghost predicate SkipsFields(d: Text, r: Result<int, WireError>) {
    && (forall f, rest :: Grammar.Good(f) && d == Grammar.Flat(f) + rest ==> r == Ok(|Grammar.Flat(f)|))
    && (r.Ok? && 0 <= r.value <= |d| ==> exists f :: Grammar.Good(f) && d[..r.value] == Grammar.Flat(f))
  }

  lemma SkippedFields(d: Text, r: Result<int, WireError>)
    requires Skipped(d, r)
    ensures SkipsFields(d, r)
  {
    forall f, rest | Grammar.Good(f) && d == Grammar.Flat(f) + rest
      ensures r == Ok(|Grammar.Flat(f)|)
    {
      Grammar.SkipsExactly(d, rest);
    }
    if r.Ok? && 0 <= r.value <= |d| {
      var f, rest := Grammar.FieldOf(d);
      assert d[..r.value] == Grammar.Flat(f);
    }
  }

  /** The value behind a tag, of any wire type: the index behind it and the groups open then. */
  method SkipOne(d: Text, j: nat, wireType: nat, depth: nat) returns (err: Option<WireError>, i: int, open: nat)
    requires j <= |d| < TWO63 && wireType < 8
    ensures err.None? && i <= |d| ==> j <= i && SkipValue(wireType, d[j..], depth) == Some((d[i..], open))
    ensures err.Some? || i > |d| ==> SkipValue(wireType, d[j..], depth).None?
    ensures err.None? ==> i < TWO63
  {
    err, i, open := None, j, depth;
    if wireType == 0 {
      var v;
      err, v, i := ReadVarint(d, j);
    } else if wireType == 1 {
      i := Int64(j + 8);
    } else if wireType == 2 {
      var v;
      err, v, i := ReadVarint(d, j);
      if err.None? {
        var length := Int64(v);
        if length < 0 {
          return Some(InvalidLength), i, open;
        }
        i := Int64(i + length);
      }
    } else if wireType == 3 {
      open := depth + 1;
    } else if wireType == 4 {
      if depth == 0 {
        return Some(UnexpectedEndOfGroup), i, open;
      }
      open := depth - 1;
    } else if wireType == 5 {
      i := Int64(j + 4);
    } else {
      return Some(IllegalWireType), i, open;
    }
    if err.None? && i < 0 {
      return Some(InvalidLength), i, open;
    }
  }

  /** Past one field, whose groups may be nested to any depth. */
  method Skip(d: Text) returns (r: Result<int, WireError>)
    requires |d| < TWO63
    ensures Skipped(d, r) && SkipsFields(d, r)
    ensures r.Ok? ==> 0 <= r.value < TWO63
  {
    r := SkipLoop(d);
    SkippedFields(d, r);
  }

  /** The loop over tags and values, with the number of open groups. */
  method SkipLoop(d: Text) returns (r: Result<int, WireError>)
    requires |d| < TWO63
    ensures Skipped(d, r)
    ensures r.Ok? ==> 0 <= r.value < TWO63
  {
    var i, depth := 0, 0;
    assert d[0..] == d;
    while i < |d|
      invariant 0 <= i < TWO63
      invariant i <= |d| ==> SkipField(d, 0) == SkipField(d[i..], depth)
      invariant i > |d| ==> SkipField(d, 0).None?
      decreases |d| - i
    {
      var err, wire, j := ReadVarint(d, i);
      if err.Some? {
        return Err(err.value);
      }
      err, i, depth := SkipOne(d, j, wire % 8, depth);
      if err.Some? {
        return Err(err.value);
      }
      if depth == 0 {
        return Ok(i);
      }
    }
    return Err(UnexpectedEof);
  }

  lemma Extent(d: Text, start: nat, post: nat)
    requires start <= post <= |d|
    ensures d[start..][..post - start] == d[start..post]
    ensures d[start..][post - start..] == d[post..]
  {
  }

  /** The place behind a field whose number is unknown. */
  method SkipUnknown(d: Text, i: nat) returns (err: Option<WireError>, post: nat)
    requires i < |d| < TWO63
    ensures err.None? ==> i < post <= |d| && SkipField(d[i..], 0) == Some(d[post..])
    ensures err.Some? ==> SkipField(d[i..], 0).None?
  {
    post := i;
    var n := Skip(d[i..]);
    if n.Err? {
      return Some(n.error), post;
    }
    var end := Int64(i + n.value);
    if end < 0 {
      return Some(InvalidLength), post;
    }
    if end > |d| {
      return Some(UnexpectedEof), post;
    }
    Extent(d, i, end);
    return None, end;
  }

  /** The head of each decoder's loop: the tag, and then either the extent of a known field or the
      place behind an unknown one, for which the number is 0. */
  method ReadField(d: Text, i: nat, max: nat) returns (err: Option<WireError>, num: nat, start: nat, post: nat)
    requires i < |d| < TWO63
    ensures err.None? ==>
              && i <= start <= post <= |d| && i < post
              && NextItem(d[i..], max) == Some((if num == 0 then Unknown else Known(num, d[start..post]), d[post..]))
    ensures err.Some? ==> NextItem(d[i..], max).None?
  {
    num, start, post := 0, i, i;
    var wire, j;
    err, wire, j := ReadVarint(d, i);
    if err.Some? {
      return;
    }
    var fieldNum, wireType := Int32(wire / 8), wire % 8;
    if wireType == 4 {
      return Some(EndGroup), num, start, post;
    }
    if fieldNum <= 0 {
      return Some(IllegalTag), num, start, post;
    }
    if fieldNum <= max {
      if wireType != 2 {
        return Some(WrongWireType), num, start, post;
      }
      num := fieldNum;
      err, start, post := ReadLength(d, j);
      if err.None? {
        Extent(d, start, post);
      }
    } else {
      err, post := SkipUnknown(d, i);
    }
  }

  /** On every byte sequence: exactly the message that the wire format gives it, or an error. */
  method UnmarshalTrace(d: Text) returns (r: Result<ClassTrace, WireError>)
    requires |d| < TWO63
    ensures r.Ok? <==> DecodeTrace(d).Some?
    ensures r.Ok? ==> DecodeTrace(d) == Some(r.value)
  {
    var m, i := EMPTY_TRACE, 0;
    assert d[0..] == d;
    while i < |d|
      invariant 0 <= i <= |d|
      invariant DecodeTrace(d) == Decode(TRACE, d[i..], m)
      decreases |d| - i
    {
      var err, num, start, post := ReadField(d, i, 2);
      if err.Some? {
        return Err(err.value);
      }
      if num == 1 {
        m := m.(path := d[start..post]);
      } else if num == 2 {
        m := m.(base := d[start..post]);
      }
      i := post;
    }
    return Ok(m);
  }

  method UnmarshalPacket(d: Text) returns (r: Result<PacketData, WireError>)
    requires |d| < TWO63
    ensures r.Ok? <==> DecodePacket(d).Some?
    ensures r.Ok? ==> DecodePacket(d) == Some(r.value)
  {
    var m, i := EMPTY_PACKET, 0;
    assert d[0..] == d;
    while i < |d|
      invariant 0 <= i <= |d|
      invariant DecodePacket(d) == Decode(PACKET, d[i..], m)
      decreases |d| - i
    {
      var err, num, start, post := ReadField(d, i, 6);
      if err.Some? {
        return Err(err.value);
      }
      var field := d[start..post];
      if num == 1 {
        m := m.(classId := field);
      } else if num == 2 {
        m := m.(classUri := field);
      } else if num == 3 {
        m := m.(tokenIds := m.tokenIds + [field]);
      } else if num == 4 {
        m := m.(tokenUris := m.tokenUris + [field]);
      } else if num == 5 {
        m := m.(sender := field);
      } else if num == 6 {
        m := m.(receiver := field);
      }
      i := post;
    }
    return Ok(m);
  }

  method UnmarshalGenesis(d: Text) returns (r: Result<GenesisState, WireError>)
    requires |d| < TWO63
    ensures r.Ok? <==> DecodeGenesis(d).Some?
    ensures r.Ok? ==> DecodeGenesis(d) == Some(r.value)
  {
    var m, i := EMPTY_GENESIS, 0;
    assert d[0..] == d;
    while i < |d|
      invariant 0 <= i <= |d|
      invariant DecodeGenesis(d) == Decode(GENESIS, d[i..], m)
      decreases |d| - i
    {
      var err, num, start, post := ReadField(d, i, 2);
      if err.Some? {
        return Err(err.value);
      }
      if num == 1 {
        m := m.(portId := d[start..post]);
      } else if num == 2 {
        var t := UnmarshalTrace(d[start..post]);
        if t.Err? {
          return Err(t.error);
        }
        m := m.(traces := m.traces + [t.value]);
      }
      i := post;
    }
    return Ok(m);
  }
}
