/** What the bytes of each message mean, by field number, and that no shorter bytes mean the same. */
module Meaning {
  import opened Bytes
  import opened ClassTraces
  import opened TransferSpec
  import opened Wire
  import opened Grammar
  import opened Messages

  /** The contents of the last field with the number, if there is one. */
  ghost function LastOr(fs: Fields, num: int, default: Text): Text {
    match fs
    case Nil => default
    case Cons(f, rest) => LastOr(rest, num, if Num(f) == num && f.Delimited? then f.data else default)
  }

  /** The contents of all fields with the number, in order. */
  ghost function AllOf(fs: Fields, num: int): seq<Text> {
    match fs
    case Nil => []
    case Cons(f, rest) => (if Num(f) == num && f.Delimited? then [f.data] else []) + AllOf(rest, num)
  }

  // ---- traces --------------------------------------------------------------------------------------------

  ghost function TraceFrom(fs: Fields, m: ClassTrace): ClassTrace {
    ClassTrace(LastOr(fs, 1, m.path), LastOr(fs, 2, m.base))
  }

  lemma {:induction false} ApplyTrace(fs: Fields, m: ClassTrace)
    requires TakesAll(fs, 2)
    ensures Apply(TRACE, fs, m) == Some(TraceFrom(fs, m))
  {
    match fs
    case Nil =>
    case Cons(f, rest) =>
      ApplyTrace(rest, if Num(f) == 1 then m.(path := f.data) else if Num(f) == 2 then m.(base := f.data) else m);
  }

  /** A ClassTrace is what the last field 1 and the last field 2 say, an absent one reading as empty. */
  lemma TraceMeaning(d: Text, t: ClassTrace)
    ensures DecodeTrace(d) == Some(t) <==>
      exists fs :: IsMessage(fs, 2, d) && t == ClassTrace(LastOr(fs, 1, []), LastOr(fs, 2, []))
  {
    DecodesExactly(TRACE, d, EMPTY_TRACE, t);
    forall fs | IsMessage(fs, 2, d)
      ensures Apply(TRACE, fs, EMPTY_TRACE) == Some(TraceFrom(fs, EMPTY_TRACE))
    {
      ApplyTrace(fs, EMPTY_TRACE);
    }
  }

  // ---- packets -------------------------------------------------------------------------------------------

  ghost function PacketFrom(fs: Fields, m: PacketData): PacketData {
    PacketData(LastOr(fs, 1, m.classId), LastOr(fs, 2, m.classUri), m.tokenIds + AllOf(fs, 3),
               m.tokenUris + AllOf(fs, 4), LastOr(fs, 5, m.sender), LastOr(fs, 6, m.receiver))
  }

  ghost function PutNext(f: Field, m: PacketData): PacketData
    requires Takes(f, 6)
  {
    if Num(f) == 1 then m.(classId := f.data)
    else if Num(f) == 2 then m.(classUri := f.data)
    else if Num(f) == 3 then m.(tokenIds := m.tokenIds + [f.data])
    else if Num(f) == 4 then m.(tokenUris := m.tokenUris + [f.data])
    else if Num(f) == 5 then m.(sender := f.data)
    else if Num(f) == 6 then m.(receiver := f.data)
    else m
  }

  lemma Regrouped<T>(a: seq<T>, b: seq<T>, c: seq<T>)
    ensures a + (b + c) == (a + b) + c && a + [] == a && [] + c == c
  {
  }

  lemma PacketFromNext(f: Field, rest: Fields, m: PacketData)
    requires Takes(f, 6)
    ensures PacketFrom(Cons(f, rest), m) == PacketFrom(rest, PutNext(f, m))
  {
    var data := if f.Delimited? then [f.data] else [];
    Regrouped(m.tokenIds, data, AllOf(rest, 3));
    Regrouped(m.tokenUris, data, AllOf(rest, 4));
  }

  lemma ApplyNext(f: Field, rest: Fields, m: PacketData)
    requires Takes(f, 6) && TakesAll(rest, 6)
    ensures Apply(PACKET, Cons(f, rest), m) == Apply(PACKET, rest, PutNext(f, m))
  {
  }

  lemma {:induction false} ApplyPacket(fs: Fields, m: PacketData)
    requires TakesAll(fs, 6)
    ensures Apply(PACKET, fs, m) == Some(PacketFrom(fs, m))
  {
    match fs
    case Nil =>
      Regrouped(m.tokenIds, [], []);
      Regrouped(m.tokenUris, [], []);
    case Cons(f, rest) =>
      ApplyNext(f, rest, m);
      PacketFromNext(f, rest, m);
      ApplyPacket(rest, PutNext(f, m));
  }

  lemma EmptyPacketFrom(fs: Fields)
    ensures PacketFrom(fs, EMPTY_PACKET) ==
      PacketData(LastOr(fs, 1, []), LastOr(fs, 2, []), AllOf(fs, 3), AllOf(fs, 4), LastOr(fs, 5, []), LastOr(fs, 6, []))
  {
    Regrouped([], [], AllOf(fs, 3));
    Regrouped([], [], AllOf(fs, 4));
  }

  /** A packet is what the last fields 1, 2, 5 and 6 say, and all fields 3 and 4 in order. */
  lemma PacketMeaning(d: Text, p: PacketData)
    ensures DecodePacket(d) == Some(p) <==>
      exists fs :: IsMessage(fs, 6, d) &&
        p == PacketData(LastOr(fs, 1, []), LastOr(fs, 2, []), AllOf(fs, 3), AllOf(fs, 4),
                        LastOr(fs, 5, []), LastOr(fs, 6, []))
  {
    DecodesExactly(PACKET, d, EMPTY_PACKET, p);
    forall fs | IsMessage(fs, 6, d)
      ensures Apply(PACKET, fs, EMPTY_PACKET) ==
        Some(PacketData(LastOr(fs, 1, []), LastOr(fs, 2, []), AllOf(fs, 3), AllOf(fs, 4),
                        LastOr(fs, 5, []), LastOr(fs, 6, [])))
    {
      ApplyPacket(fs, EMPTY_PACKET);
      EmptyPacketFrom(fs);
    }
  }

  // ---- genesis -------------------------------------------------------------------------------------------

  /** The traces that all of the items encode. */
  ghost predicate Encodes(items: seq<Text>, ts: seq<ClassTrace>) {
    |items| == |ts| && forall i :: 0 <= i < |ts| ==> DecodeTrace(items[i]) == Some(ts[i])
  }

  /** What the fields make of a genesis state. */
  ghost predicate GenesisFrom(fs: Fields, m: GenesisState, g: GenesisState) {
    g.portId == LastOr(fs, 1, m.portId) && m.traces <= g.traces && Encodes(AllOf(fs, 2), g.traces[|m.traces|..])
  }

  lemma EncodesFirst(item: Text, items: seq<Text>, ts: seq<ClassTrace>)
    ensures Encodes([item] + items, ts) <==> ts != [] && DecodeTrace(item) == Some(ts[0]) && Encodes(items, ts[1..])
  {
    var all := [item] + items;
    if ts != [] && DecodeTrace(item) == Some(ts[0]) && Encodes(items, ts[1..]) {
      forall i | 0 <= i < |ts|
        ensures DecodeTrace(all[i]) == Some(ts[i])
      {
        assert i > 0 ==> all[i] == items[i - 1] && ts[i] == ts[1..][i - 1];
      }
    }
    if Encodes(all, ts) {
      forall i | 0 <= i < |ts| - 1
        ensures DecodeTrace(items[i]) == Some(ts[1..][i])
      {
        assert items[i] == all[i + 1];
      }
      assert all[0] == item;
    }
  }

  lemma OneMore(a: seq<ClassTrace>, t: ClassTrace, b: seq<ClassTrace>)
    ensures a <= b && b[|a|..] != [] && b[|a|] == t <==> a + [t] <= b
    ensures a + [t] <= b ==> b[|a|..][1..] == b[|a + [t]|..]
  {
    if a + [t] <= b {
      assert b[..|a|] == (a + [t])[..|a|] == a;
      assert b[|a|] == (a + [t])[|a|];
    }
    if a <= b && b[|a|..] != [] && b[|a|] == t {
      assert b[..|a| + 1] == a + [t];
    }
  }

  lemma GenesisTrace(f: Field, rest: Fields, m: GenesisState, g: GenesisState)
    requires Takes(f, 2) && Num(f) == 2
    ensures GenesisFrom(Cons(f, rest), m, g) <==>
      DecodeTrace(f.data).Some? && GenesisFrom(rest, m.(traces := m.traces + [DecodeTrace(f.data).value]), g)
  {
    if m.traces <= g.traces {
      EncodesFirst(f.data, AllOf(rest, 2), g.traces[|m.traces|..]);
    }
    if DecodeTrace(f.data).Some? {
      OneMore(m.traces, DecodeTrace(f.data).value, g.traces);
    }
  }

  lemma GenesisOther(f: Field, rest: Fields, m: GenesisState, g: GenesisState)
    requires Takes(f, 2) && Num(f) != 2
    ensures GenesisFrom(Cons(f, rest), m, g) <==>
      GenesisFrom(rest, if Num(f) == 1 then m.(portId := f.data) else m, g)
  {
    assert AllOf(Cons(f, rest), 2) == AllOf(rest, 2);
  }

  lemma {:induction false} ApplyGenesis(fs: Fields, m: GenesisState, g: GenesisState)
    requires TakesAll(fs, 2)
    ensures Apply(GENESIS, fs, m) == Some(g) <==> GenesisFrom(fs, m, g)
  {
    match fs
    case Nil =>
      assert m.traces <= g.traces && |g.traces| == |m.traces| ==> m.traces == g.traces;
    case Cons(f, rest) =>
      if Num(f) == 2 {
        GenesisTrace(f, rest, m, g);
        if DecodeTrace(f.data).Some? {
          ApplyGenesis(rest, m.(traces := m.traces + [DecodeTrace(f.data).value]), g);
        }
      } else {
        GenesisOther(f, rest, m, g);
        ApplyGenesis(rest, if Num(f) == 1 then m.(portId := f.data) else m, g);
      }
  }

  /** A genesis state is what the last field 1 says, and the traces that all fields 2 encode. */
  lemma GenesisMeaning(d: Text, g: GenesisState)
    ensures DecodeGenesis(d) == Some(g) <==>
      exists fs :: IsMessage(fs, 2, d) && g.portId == LastOr(fs, 1, []) && Encodes(AllOf(fs, 2), g.traces)
  {
    DecodesExactly(GENESIS, d, EMPTY_GENESIS, g);
    assert g.traces[0..] == g.traces;
    forall fs | IsMessage(fs, 2, d)
      ensures Apply(GENESIS, fs, EMPTY_GENESIS) == Some(g) <==>
        g.portId == LastOr(fs, 1, []) && Encodes(AllOf(fs, 2), g.traces)
    {
      ApplyGenesis(fs, EMPTY_GENESIS, g);
    }
  }

  // ---- the layout of an encoding ----------------------------------------------------------------------------

  /** Each item behind the tag byte and its length. */
  function Tagged(tag: byte, items: seq<Text>): Text {
    if items == [] then [] else [tag] + Varint(|items[0]|) + items[0] + Tagged(tag, items[1..])
  }

  /** A text that is written only if it is not empty. */
  function Present(s: Text): seq<Text> {
    if s == [] then [] else [s]
  }

  lemma TaggedOne(num: nat, data: Text)
    requires 1 <= num <= 15
    ensures Optional(num, data) == Tagged(num * 8 + 2, Present(data))
  {
    if data != [] {
      assert [data][1..] == [];
      assert FieldBytes(num, data) + [] == FieldBytes(num, data);
    }
  }

  lemma {:induction false} TaggedAll(num: nat, items: seq<Text>)
    requires 1 <= num <= 15
    ensures Repeated(num, items) == Tagged(num * 8 + 2, items)
    decreases |items|
  {
    if items != [] {
      TaggedAll(num, items[1..]);
    }
  }

  /** The fields of the protobuf definitions in ascending order, by their tag bytes. */
  lemma Layout(t: ClassTrace, p: PacketData, g: GenesisState)
    ensures EncodeTrace(t) == Tagged(0x0A, Present(t.path)) + Tagged(0x12, Present(t.base))
    ensures EncodePacket(p) ==
      Tagged(0x0A, Present(p.classId)) + Tagged(0x12, Present(p.classUri)) + Tagged(0x1A, p.tokenIds)
      + Tagged(0x22, p.tokenUris) + Tagged(0x2A, Present(p.sender)) + Tagged(0x32, Present(p.receiver))
    ensures EncodeGenesis(g) == Tagged(0x0A, Present(g.portId)) + Tagged(0x12, EncodeTraces(g.traces))
  {
    TaggedOne(1, t.path);
    TaggedOne(2, t.base);
    TaggedOne(1, p.classId);
    TaggedOne(2, p.classUri);
    TaggedAll(3, p.tokenIds);
    TaggedAll(4, p.tokenUris);
    TaggedOne(5, p.sender);
    TaggedOne(6, p.receiver);
    TaggedOne(1, g.portId);
    TaggedAll(2, EncodeTraces(g.traces));
  }

  // ---- encodings are the shortest ------------------------------------------------------------------------------

  lemma {:induction false} GroupsLength(s: Text, v: nat)
    requires v <= Groups(s) && s != []
    ensures |Varint(v)| <= |s|
    decreases |s|
  {
    if v >= 128 {
      assert v / 128 <= Groups(s[1..]);
      GroupsLength(s[1..], v / 128);
    }
  }

  lemma FieldCost(f: Field)
    requires Good(f) && f.Delimited?
    ensures |Flat(f)| >= FieldSize(|f.data|)
  {
    GroupsLength(f.length, |f.data|);
    SovIsLength(|f.data|);
  }

  lemma {:induction false} TraceCost(fs: Fields, m: ClassTrace)
    requires TakesAll(fs, 2)
    ensures TraceSize(TraceFrom(fs, m)) <= |FlatAll(fs)| + TraceSize(m)
  {
    match fs
    case Nil =>
    case Cons(f, rest) =>
      if Num(f) <= 2 {
        FieldCost(f);
      }
      TraceCost(rest, if Num(f) == 1 then m.(path := f.data) else if Num(f) == 2 then m.(base := f.data) else m);
  }

  /** No bytes that decode to a trace are shorter than its encoding. */
  lemma TraceShortest(d: Text, t: ClassTrace)
    requires DecodeTrace(d) == Some(t)
    ensures |EncodeTrace(t)| <= |d|
  {
    TraceMeaning(d, t);
    var fs :| IsMessage(fs, 2, d) && t == ClassTrace(LastOr(fs, 1, []), LastOr(fs, 2, []));
    TraceCost(fs, EMPTY_TRACE);
    TraceLength(t);
  }

  lemma {:induction false} RepeatedMore(items: seq<Text>, x: Text)
    ensures RepeatedSize(items + [x]) == RepeatedSize(items) + FieldSize(|x|)
    decreases |items|
  {
    if items == [] {
      assert ([] + [x])[1..] == [];
    } else {
      assert (items + [x])[1..] == items[1..] + [x];
      RepeatedMore(items[1..], x);
    }
  }

  lemma TokenCost(f: Field, m: PacketData)
    requires Takes(f, 6) && (Num(f) == 3 || Num(f) == 4)
    ensures PacketSize(PutNext(f, m)) <= |Flat(f)| + PacketSize(m)
  {
    FieldCost(f);
    if Num(f) == 3 {
      RepeatedMore(m.tokenIds, f.data);
    } else {
      RepeatedMore(m.tokenUris, f.data);
    }
  }

  lemma TextCost(f: Field, m: PacketData)
    requires Takes(f, 6) && Num(f) != 3 && Num(f) != 4
    ensures PacketSize(PutNext(f, m)) <= |Flat(f)| + PacketSize(m)
  {
    if Num(f) <= 6 {
      FieldCost(f);
    }
  }

  lemma NextCost(f: Field, m: PacketData)
    requires Takes(f, 6)
    ensures PacketSize(PutNext(f, m)) <= |Flat(f)| + PacketSize(m)
  {
    if Num(f) == 3 || Num(f) == 4 {
      TokenCost(f, m);
    } else {
      TextCost(f, m);
    }
  }

  lemma {:induction false} PacketCost(fs: Fields, m: PacketData)
    requires TakesAll(fs, 6)
    ensures PacketSize(PacketFrom(fs, m)) <= |FlatAll(fs)| + PacketSize(m)
  {
    match fs
    case Nil =>
      Regrouped(m.tokenIds, [], []);
      Regrouped(m.tokenUris, [], []);
    case Cons(f, rest) =>
      NextCost(f, m);
      PacketFromNext(f, rest, m);
      PacketCost(rest, PutNext(f, m));
  }

  /** No bytes that decode to a packet are shorter than its encoding. */
  lemma PacketShortest(d: Text, p: PacketData)
    requires DecodePacket(d) == Some(p)
    ensures |EncodePacket(p)| <= |d|
  {
    PacketMeaning(d, p);
    var fs :| IsMessage(fs, 6, d) &&
      p == PacketData(LastOr(fs, 1, []), LastOr(fs, 2, []), AllOf(fs, 3), AllOf(fs, 4),
                      LastOr(fs, 5, []), LastOr(fs, 6, []));
    EmptyPacketFrom(fs);
    PacketCost(fs, EMPTY_PACKET);
    PacketLength(p);
  }

  lemma {:induction false} VarintMono(a: nat, b: nat)
    requires a <= b
    ensures |Varint(a)| <= |Varint(b)|
    decreases b
  {
    if a >= 128 {
      VarintMono(a / 128, b / 128);
    }
  }

  /** The field of a trace is at least as long as the field of its encoding. */
  lemma TraceFieldCost(f: Field, t: ClassTrace)
    requires Good(f) && f.Delimited? && DecodeTrace(f.data) == Some(t)
    ensures FieldSize(TraceSize(t)) <= |Flat(f)|
  {
    FieldCost(f);
    TraceShortest(f.data, t);
    TraceLength(t);
    VarintMono(TraceSize(t), |f.data|);
    SovIsLength(TraceSize(t));
    SovIsLength(|f.data|);
  }

  lemma {:induction false} TracesMore(ts: seq<ClassTrace>, t: ClassTrace)
    ensures TracesSize(ts + [t]) == TracesSize(ts) + FieldSize(TraceSize(t))
    decreases |ts|
  {
    if ts == [] {
      assert ([] + [t])[1..] == [];
    } else {
      assert (ts + [t])[1..] == ts[1..] + [t];
      TracesMore(ts[1..], t);
    }
  }

  lemma {:induction false} GenesisCost(fs: Fields, m: GenesisState, g: GenesisState)
    requires TakesAll(fs, 2) && GenesisFrom(fs, m, g)
    ensures GenesisSize(g) <= |FlatAll(fs)| + GenesisSize(m)
  {
    match fs
    case Nil =>
      assert m.traces == g.traces;
    case Cons(f, rest) =>
      if Num(f) == 2 {
        GenesisTrace(f, rest, m, g);
        var t := DecodeTrace(f.data).value;
        GenesisCost(rest, m.(traces := m.traces + [t]), g);
        TraceFieldCost(f, t);
        TracesMore(m.traces, t);
      } else {
        GenesisOther(f, rest, m, g);
        if Num(f) == 1 {
          FieldCost(f);
        }
        GenesisCost(rest, if Num(f) == 1 then m.(portId := f.data) else m, g);
      }
  }

  /** No bytes that decode to a genesis state are shorter than its encoding. */
  lemma GenesisShortest(d: Text, g: GenesisState)
    requires DecodeGenesis(d) == Some(g)
    ensures |EncodeGenesis(g)| <= |d|
  {
    GenesisMeaning(d, g);
    var fs :| IsMessage(fs, 2, d) && g.portId == LastOr(fs, 1, []) && Encodes(AllOf(fs, 2), g.traces);
    assert g.traces[0..] == g.traces;
    GenesisCost(fs, EMPTY_GENESIS, g);
    GenesisLength(g);
  }
}
