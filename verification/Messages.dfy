/** The messages of the transfer module: their encodings, sizes and round trips. */
module Messages {
  import opened Bytes
  import opened ClassTraces
  import opened TransferSpec
  import opened Wire

  datatype GenesisState = GenesisState(portId: Text, traces: seq<ClassTrace>)

  const EMPTY_TRACE := ClassTrace([], [])
  const EMPTY_PACKET := PacketData([], [], [], [], [], [])
  const EMPTY_GENESIS := GenesisState([], [])

  // ---- encodings ---------------------------------------------------------------------------------

  /** Tag, length and contents of a length-delimited field. */
  function FieldBytes(num: nat, data: Text): Text
    requires 1 <= num <= 15
  {
    [num * 8 + 2] + Varint(|data|) + data
  }

  /** Empty strings are left out. */
  function Optional(num: nat, data: Text): Text
    requires 1 <= num <= 15
  {
    if data == [] then [] else FieldBytes(num, data)
  }

  function Repeated(num: nat, items: seq<Text>): Text
    requires 1 <= num <= 15
  {
    if items == [] then [] else FieldBytes(num, items[0]) + Repeated(num, items[1..])
  }

  function EncodeTrace(t: ClassTrace): Text {
    Optional(1, t.path) + Optional(2, t.base)
  }

  function EncodePacket(d: PacketData): Text {
    Optional(1, d.classId) + Optional(2, d.classUri) + Repeated(3, d.tokenIds) + Repeated(4, d.tokenUris)
    + Optional(5, d.sender) + Optional(6, d.receiver)
  }

  function EncodeTraces(ts: seq<ClassTrace>): (items: seq<Text>)
    ensures |items| == |ts|
    ensures forall i :: 0 <= i < |ts| ==> items[i] == EncodeTrace(ts[i])
  {
    seq(|ts|, i requires 0 <= i < |ts| => EncodeTrace(ts[i]))
  }

  function EncodeGenesis(g: GenesisState): Text {
    Optional(1, g.portId) + Repeated(2, EncodeTraces(g.traces))
  }

  // ---- what fields do to a message being decoded -----------------------------------------------------

  function PutTrace(m: ClassTrace, num: int, payload: Text): Option<ClassTrace> {
    if num == 1 then Some(m.(path := payload)) else Some(m.(base := payload))
  }

  function PutPacket(m: PacketData, num: int, payload: Text): Option<PacketData> {
    if num == 1 then Some(m.(classId := payload))
    else if num == 2 then Some(m.(classUri := payload))
    else if num == 3 then Some(m.(tokenIds := m.tokenIds + [payload]))
    else if num == 4 then Some(m.(tokenUris := m.tokenUris + [payload]))
    else if num == 5 then Some(m.(sender := payload))
    else Some(m.(receiver := payload))
  }

  function PutGenesis(m: GenesisState, num: int, payload: Text): Option<GenesisState> {
    if num == 1 then Some(m.(portId := payload))
    else
      match DecodeTrace(payload)
      case None => None
      case Some(t) => Some(m.(traces := m.traces + [t]))
  }

  const TRACE: Schema<ClassTrace> := Schema(2, PutTrace)
  const PACKET: Schema<PacketData> := Schema(6, PutPacket)
  const GENESIS: Schema<GenesisState> := Schema(2, PutGenesis)

  function DecodeTrace(d: Text): Option<ClassTrace> {
    Decode(TRACE, d, EMPTY_TRACE)
  }

  function DecodePacket(d: Text): Option<PacketData> {
    Decode(PACKET, d, EMPTY_PACKET)
  }

  function DecodeGenesis(d: Text): Option<GenesisState> {
    Decode(GENESIS, d, EMPTY_GENESIS)
  }

  // ---- sizes -------------------------------------------------------------------------------------------

  function FieldSize(n: nat): nat {
    1 + n + Sov(n)
  }

  function OptionalSize(n: nat): nat {
    if n == 0 then 0 else FieldSize(n)
  }

  function RepeatedSize(items: seq<Text>): nat {
    if items == [] then 0 else FieldSize(|items[0]|) + RepeatedSize(items[1..])
  }

  function TraceSize(t: ClassTrace): nat {
    OptionalSize(|t.path|) + OptionalSize(|t.base|)
  }

  function PacketSize(d: PacketData): nat {
    OptionalSize(|d.classId|) + OptionalSize(|d.classUri|) + RepeatedSize(d.tokenIds) + RepeatedSize(d.tokenUris)
    + OptionalSize(|d.sender|) + OptionalSize(|d.receiver|)
  }

  function TracesSize(ts: seq<ClassTrace>): nat {
    if ts == [] then 0 else FieldSize(TraceSize(ts[0])) + TracesSize(ts[1..])
  }

  function GenesisSize(g: GenesisState): nat {
    OptionalSize(|g.portId|) + TracesSize(g.traces)
  }

  lemma OptionalLength(num: nat, data: Text)
    requires 1 <= num <= 15
    ensures |Optional(num, data)| == OptionalSize(|data|)
    ensures |FieldBytes(num, data)| == FieldSize(|data|)
  {
    SovIsLength(|data|);
  }

  lemma {:induction false} RepeatedLength(num: nat, items: seq<Text>)
    requires 1 <= num <= 15
    ensures |Repeated(num, items)| == RepeatedSize(items)
    decreases |items|
  {
    if items != [] {
      OptionalLength(num, items[0]);
      RepeatedLength(num, items[1..]);
    }
  }

  lemma TraceLength(t: ClassTrace)
    ensures |EncodeTrace(t)| == TraceSize(t)
  {
    OptionalLength(1, t.path);
    OptionalLength(2, t.base);
  }

  lemma PacketLength(d: PacketData)
    ensures |EncodePacket(d)| == PacketSize(d)
  {
    OptionalLength(1, d.classId);
    OptionalLength(2, d.classUri);
    RepeatedLength(3, d.tokenIds);
    RepeatedLength(4, d.tokenUris);
    OptionalLength(5, d.sender);
    OptionalLength(6, d.receiver);
  }

  lemma {:induction false} TracesLength(ts: seq<ClassTrace>)
    ensures RepeatedSize(EncodeTraces(ts)) == TracesSize(ts)
    decreases |ts|
  {
    if ts != [] {
      TraceLength(ts[0]);
      TracesLength(ts[1..]);
      assert EncodeTraces(ts)[1..] == EncodeTraces(ts[1..]);
    }
  }

  lemma GenesisLength(g: GenesisState)
    ensures |EncodeGenesis(g)| == GenesisSize(g)
  {
    OptionalLength(1, g.portId);
    RepeatedLength(2, EncodeTraces(g.traces));
    TracesLength(g.traces);
  }

  // ---- round trips -----------------------------------------------------------------------------------------

  lemma TagValue(num: nat)
    requires 1 <= num <= 15
    ensures (num * 8 + 2) / 8 == num && (num * 8 + 2) % 8 == 2 && Int32(num) == num
  {
  }

  /** A written field is read back as that field. */
  lemma FieldItem(num: nat, data: Text, rest: Text, max: nat)
    requires 1 <= num <= max <= 15 && |data| < TWO64
    ensures NextItem(FieldBytes(num, data) + rest, max) == Some((Known(num, data), rest))
  {
    var tag := num * 8 + 2;
    var tail := Varint(|data|) + (data + rest);
    assert FieldBytes(num, data) + rest == [tag] + tail;
    TagValue(num);
    VarintRoundTrip(tag, tail);
    assert Varint(tag) == [tag];
    VarintRoundTrip(|data|, data + rest);
    assert (data + rest)[..|data|] == data && (data + rest)[|data|..] == rest;
  }

  lemma DecodeField<M>(sch: Schema<M>, num: nat, data: Text, rest: Text, m: M)
    requires 1 <= num <= sch.max <= 15 && |data| < TWO64 && sch.put(m, num, data).Some?
    ensures Decode(sch, FieldBytes(num, data) + rest, m) == Decode(sch, rest, sch.put(m, num, data).value)
  {
    FieldItem(num, data, rest, sch.max);
  }

  lemma TraceRoundTrip(t: ClassTrace)
    requires TraceSize(t) < TWO63
    ensures DecodeTrace(EncodeTrace(t)) == Some(t)
  {
    var m1 := ClassTrace(t.path, []);
    var second := Optional(2, t.base);
    if t.path != [] {
      DecodeField(TRACE, 1, t.path, second, EMPTY_TRACE);
    } else {
      assert EncodeTrace(t) == second;
    }
    if t.base != [] {
      DecodeField(TRACE, 2, t.base, [], m1);
      assert second + [] == second;
    }
  }

  lemma DecodeOptional<M>(sch: Schema<M>, num: nat, data: Text, rest: Text, m: M, m': M)
    requires 1 <= num <= sch.max <= 15 && |data| < TWO64
    requires if data == [] then m' == m else sch.put(m, num, data) == Some(m')
    ensures Decode(sch, Optional(num, data) + rest, m) == Decode(sch, rest, m')
  {
    if data == [] {
      assert Optional(num, data) + rest == rest;
    } else {
      DecodeField(sch, num, data, rest, m);
    }
  }

  ghost predicate SmallItems(items: seq<Text>) {
    forall i :: 0 <= i < |items| ==> |items[i]| < TWO63
  }

  lemma {:induction false} ItemsAreSmall(items: seq<Text>)
    requires RepeatedSize(items) < TWO63
    ensures SmallItems(items)
  {
    if items != [] {
      ItemsAreSmall(items[1..]);
      assert items == [items[0]] + items[1..];
    }
  }

  ghost predicate SmallTraces(ts: seq<ClassTrace>) {
    forall i :: 0 <= i < |ts| ==> TraceSize(ts[i]) < TWO63
  }

  lemma {:induction false} TracesAreSmall(ts: seq<ClassTrace>)
    requires TracesSize(ts) < TWO63
    ensures SmallTraces(ts)
  {
    if ts != [] {
      TracesAreSmall(ts[1..]);
      assert ts == [ts[0]] + ts[1..];
    }
  }

  lemma RepeatedFirst(num: nat, items: seq<Text>, rest: Text)
    requires 1 <= num <= 15 && items != []
    ensures Repeated(num, items) + rest == FieldBytes(num, items[0]) + (Repeated(num, items[1..]) + rest)
  {
  }

  lemma TokenIdFirst(items: seq<Text>, rest: Text, m: PacketData)
    requires items != [] && SmallItems(items)
    ensures Decode(PACKET, Repeated(3, items) + rest, m) ==
            Decode(PACKET, Repeated(3, items[1..]) + rest, m.(tokenIds := m.tokenIds + [items[0]]))
  {
    RepeatedFirst(3, items, rest);
    DecodeField(PACKET, 3, items[0], Repeated(3, items[1..]) + rest, m);
  }

  lemma TokenUriFirst(items: seq<Text>, rest: Text, m: PacketData)
    requires items != [] && SmallItems(items)
    ensures Decode(PACKET, Repeated(4, items) + rest, m) ==
            Decode(PACKET, Repeated(4, items[1..]) + rest, m.(tokenUris := m.tokenUris + [items[0]]))
  {
    RepeatedFirst(4, items, rest);
    DecodeField(PACKET, 4, items[0], Repeated(4, items[1..]) + rest, m);
  }

  lemma NoItems(num: nat, rest: Text, items: seq<Text>)
    requires 1 <= num <= 15 && items == []
    ensures Repeated(num, items) + rest == rest
  {
  }

  lemma Shift<T>(a: seq<T>, b: seq<T>)
    ensures b == [] ==> a + b == a
    ensures b != [] ==> (a + [b[0]]) + b[1..] == a + b
  {
  }

  lemma {:induction false} DecodeTokenIds(items: seq<Text>, rest: Text, m: PacketData)
    requires SmallItems(items)
    ensures Decode(PACKET, Repeated(3, items) + rest, m) ==
            Decode(PACKET, rest, m.(tokenIds := m.tokenIds + items))
    decreases |items|
  {
    Shift(m.tokenIds, items);
    if items == [] {
      NoItems(3, rest, items);
    } else {
      TokenIdFirst(items, rest, m);
      DecodeTokenIds(items[1..], rest, m.(tokenIds := m.tokenIds + [items[0]]));
    }
  }

  lemma {:induction false} DecodeTokenUris(items: seq<Text>, rest: Text, m: PacketData)
    requires SmallItems(items)
    ensures Decode(PACKET, Repeated(4, items) + rest, m) ==
            Decode(PACKET, rest, m.(tokenUris := m.tokenUris + items))
    decreases |items|
  {
    Shift(m.tokenUris, items);
    if items == [] {
      NoItems(4, rest, items);
    } else {
      TokenUriFirst(items, rest, m);
      DecodeTokenUris(items[1..], rest, m.(tokenUris := m.tokenUris + [items[0]]));
    }
  }

  lemma PacketAddresses(d: PacketData, m: PacketData)
    requires PacketSize(d) < TWO63 && m == d.(sender := [], receiver := [])
    ensures Decode(PACKET, Optional(5, d.sender) + Optional(6, d.receiver), m) == Some(d)
  {
    var last := Optional(6, d.receiver);
    DecodeOptional(PACKET, 5, d.sender, last, m, m.(sender := d.sender));
    DecodeOptional(PACKET, 6, d.receiver, [], m.(sender := d.sender), d);
    assert last + [] == last;
  }

  lemma PacketTokens(d: PacketData, rest: Text, m: PacketData)
    requires PacketSize(d) < TWO63 && m.tokenIds == [] && m.tokenUris == []
    ensures Decode(PACKET, Repeated(3, d.tokenIds) + (Repeated(4, d.tokenUris) + rest), m) ==
            Decode(PACKET, rest, m.(tokenIds := d.tokenIds, tokenUris := d.tokenUris))
  {
    ItemsAreSmall(d.tokenIds);
    ItemsAreSmall(d.tokenUris);
    DecodeTokenIds(d.tokenIds, Repeated(4, d.tokenUris) + rest, m);
    assert [] + d.tokenIds == d.tokenIds;
    DecodeTokenUris(d.tokenUris, rest, m.(tokenIds := d.tokenIds));
    assert [] + d.tokenUris == d.tokenUris;
  }

  lemma PacketShape(a: Text, b: Text, c: Text, d: Text, e: Text, f: Text)
    ensures a + b + c + d + e + f == a + (b + (c + (d + (e + f))))
  {
  }

  lemma PacketRoundTrip(d: PacketData)
    requires PacketSize(d) < TWO63
    ensures DecodePacket(EncodePacket(d)) == Some(d)
  {
    var addresses := Optional(5, d.sender) + Optional(6, d.receiver);
    var tokens := Repeated(3, d.tokenIds) + (Repeated(4, d.tokenUris) + addresses);
    PacketShape(Optional(1, d.classId), Optional(2, d.classUri), Repeated(3, d.tokenIds), Repeated(4, d.tokenUris),
                Optional(5, d.sender), Optional(6, d.receiver));
    var m1 := EMPTY_PACKET.(classId := d.classId);
    var m2 := m1.(classUri := d.classUri);
    DecodeOptional(PACKET, 1, d.classId, Optional(2, d.classUri) + tokens, EMPTY_PACKET, m1);
    DecodeOptional(PACKET, 2, d.classUri, tokens, m1, m2);
    PacketTokens(d, addresses, m2);
    PacketAddresses(d, d.(sender := [], receiver := []));
  }

  lemma PutGenesisTrace(m: GenesisState, t: ClassTrace, rest: Text)
    requires TraceSize(t) < TWO63
    ensures Decode(GENESIS, FieldBytes(2, EncodeTrace(t)) + rest, m) ==
            Decode(GENESIS, rest, m.(traces := m.traces + [t]))
  {
    TraceLength(t);
    TraceRoundTrip(t);
    DecodeField(GENESIS, 2, EncodeTrace(t), rest, m);
  }

  lemma {:induction false} DecodeGenesisTraces(ts: seq<ClassTrace>, m: GenesisState)
    requires SmallTraces(ts)
    ensures Decode(GENESIS, Repeated(2, EncodeTraces(ts)), m) == Some(m.(traces := m.traces + ts))
    decreases |ts|
  {
    Shift(m.traces, ts);
    if ts != [] {
      assert EncodeTraces(ts)[1..] == EncodeTraces(ts[1..]);
      PutGenesisTrace(m, ts[0], Repeated(2, EncodeTraces(ts[1..])));
      DecodeGenesisTraces(ts[1..], m.(traces := m.traces + [ts[0]]));
    }
  }

  lemma GenesisRoundTrip(g: GenesisState)
    requires GenesisSize(g) < TWO63
    ensures DecodeGenesis(EncodeGenesis(g)) == Some(g)
  {
    var m1 := EMPTY_GENESIS.(portId := g.portId);
    DecodeOptional(GENESIS, 1, g.portId, Repeated(2, EncodeTraces(g.traces)), EMPTY_GENESIS, m1);
    TracesAreSmall(g.traces);
    DecodeGenesisTraces(g.traces, m1);
    assert [] + g.traces == g.traces;
  }
}
