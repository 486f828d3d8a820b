/** Which byte sequences are fields of a message, told from the bytes alone, and that the wire format's reader agrees. */
module Grammar {
  import opened Bytes
  import opened Wire

  // ---- varints ---------------------------------------------------------------------------------------

  /** One to ten bytes, of which only the last is below 128. */
  ghost predicate IsVarint(s: Text) {
    1 <= |s| <= 10 && s[|s| - 1] < 128 && forall i :: 0 <= i < |s| - 1 ==> s[i] >= 128
  }

  /** Seven bits a byte, the lowest first. */
  ghost function Groups(s: Text): nat {
    if s == [] then 0 else s[0] % 128 + 128 * Groups(s[1..])
  }

  /** What fits in 64 bits of it. */
  ghost function Value(s: Text): nat {
    Groups(s) % TWO64
  }

  lemma ModAdd(x: nat, y: nat)
    ensures (x % TWO64 + y) % TWO64 == (x + y) % TWO64
  {
  }

  lemma GroupsStep(s: Text, p: nat)
    requires s != []
    ensures Groups(s) * p == s[0] % 128 * p + Groups(s[1..]) * (128 * p)
  {
    assert Groups(s) % 128 == s[0] % 128 && Groups(s) / 128 == Groups(s[1..]);
    SplitLow(Groups(s), p);
  }

  lemma {:induction false} ReadsGroups(s: Text, rest: Text, shift: nat, acc: nat)
    requires s != [] && shift + 7 * (|s| - 1) < 64
    requires s[|s| - 1] < 128 && forall i :: 0 <= i < |s| - 1 ==> s[i] >= 128
    ensures GetVarint(s + rest, shift, acc) == Some(((acc + Groups(s) * Pow2(shift)) % TWO64, rest))
    decreases |s|
  {
    var d, p := s + rest, Pow2(shift);
    var low := s[0] % 128 * p;
    var acc' := (acc + low) % TWO64;
    assert d[0] == s[0] && d[1..] == s[1..] + rest;
    GroupsStep(s, p);
    if |s| == 1 {
      assert s[1..] == [] && [] + rest == rest;
    } else {
      ReadsGroups(s[1..], rest, shift + 7, acc');
      Pow2Seven(shift);
      MulMono(0, Groups(s[1..]), 128 * p);
      ModAdd(acc + low, Groups(s[1..]) * (128 * p));
    }
  }

  /** A varint is read to its end, and to its value. */
  lemma ReadsVarint(s: Text, rest: Text)
    requires IsVarint(s)
    ensures GetVarint(s + rest, 0, 0) == Some((Value(s), rest))
  {
    ReadsGroups(s, rest, 0, 0);
    assert Pow2(0) == 1;
  }

  lemma {:induction false} VarintShape(d: Text, shift: nat, acc: nat) returns (s: Text, rest: Text)
    requires GetVarint(d, shift, acc).Some?
    ensures d == s + rest && rest == GetVarint(d, shift, acc).value.1
    ensures s != [] && shift + 7 * (|s| - 1) < 64
    ensures s[|s| - 1] < 128 && forall i :: 0 <= i < |s| - 1 ==> s[i] >= 128
    decreases |d|
  {
    if d[0] < 128 {
      s, rest := [d[0]], d[1..];
    } else {
      s, rest := VarintShape(d[1..], shift + 7, (acc + d[0] % 128 * Pow2(shift)) % TWO64);
      s := [d[0]] + s;
    }
  }

  /** Whatever is read as a varint is one. */
  lemma VarintRead(d: Text) returns (s: Text, rest: Text)
    requires GetVarint(d, 0, 0).Some?
    ensures d == s + rest && IsVarint(s) && GetVarint(d, 0, 0) == Some((Value(s), rest))
  {
    s, rest := VarintShape(d, 0, 0);
    ReadsVarint(s, rest);
  }

  // ---- fields ----------------------------------------------------------------------------------------

  /** A field, cut into its tag, its contents and, for a group, the tag that ends it. */
  datatype Field =
    | Number(tag: Text, value: Text)
    | Fixed64(tag: Text, data: Text)
    | Delimited(tag: Text, length: Text, data: Text)
    | Group(tag: Text, inner: Fields, close: Text)
    | Fixed32(tag: Text, data: Text)

  datatype Fields = Nil | Cons(head: Field, tail: Fields)

  function Flat(f: Field): Text {
    match f
    case Number(tag, value) => tag + value
    case Fixed64(tag, data) => tag + data
    case Delimited(tag, length, data) => tag + (length + data)
    case Group(tag, inner, close) => tag + (FlatAll(inner) + close)
    case Fixed32(tag, data) => tag + data
  }

  function FlatAll(fs: Fields): Text {
    match fs
    case Nil => []
    case Cons(f, rest) => Flat(f) + FlatAll(rest)
  }

  /** A tag of the wire type. */
  ghost predicate IsTag(s: Text, wireType: nat) {
    IsVarint(s) && Value(s) % 8 == wireType
  }

  ghost predicate Good(f: Field) {
    match f
    case Number(tag, value) => IsTag(tag, 0) && IsVarint(value)
    case Fixed64(tag, data) => IsTag(tag, 1) && |data| == 8
    case Delimited(tag, length, data) => IsTag(tag, 2) && IsVarint(length) && Value(length) == |data|
    case Group(tag, inner, close) => IsTag(tag, 3) && GoodAll(inner) && IsTag(close, 4)
    case Fixed32(tag, data) => IsTag(tag, 5) && |data| == 4
  }

  ghost predicate GoodAll(fs: Fields) {
    match fs
    case Nil => true
    case Cons(f, rest) => Good(f) && GoodAll(rest)
  }

  // ---- fields are skipped to their end -----------------------------------------------------------------

  /** Skipping reads a tag and then what its wire type asks for. */
  lemma SkipTag(tag: Text, wireType: nat, r: Text, depth: nat)
    requires IsTag(tag, wireType)
    ensures SkipField(tag + r, depth) ==
      match SkipValue(wireType, r, depth)
      case None => None
      case Some((rest, open)) => if open == 0 then Some(rest) else SkipField(rest, open)
  {
    ReadsVarint(tag, r);
  }

  /** Past the end of one of the open groups. */
  ghost function Closed(r: Text, depth: nat): Option<Text>
    requires depth >= 1
  {
    if depth == 1 then Some(r) else SkipField(r, depth - 1)
  }

  lemma SkipGroupTag(d: Text, wire: nat, r: Text, depth: nat)
    requires GetVarint(d, 0, 0) == Some((wire, r))
    ensures wire % 8 == 3 ==> SkipField(d, depth) == SkipField(r, depth + 1)
    ensures wire % 8 == 4 && depth >= 1 ==> SkipField(d, depth) == Closed(r, depth)
  {
  }

  lemma SkipOpen(tag: Text, r: Text, depth: nat)
    requires IsTag(tag, 3)
    ensures SkipField(tag + r, depth) == SkipField(r, depth + 1)
  {
    ReadsVarint(tag, r);
    SkipGroupTag(tag + r, Value(tag), r, depth);
  }

  lemma SkipClose(tag: Text, r: Text, depth: nat)
    requires IsTag(tag, 4) && depth >= 1
    ensures SkipField(tag + r, depth) == Closed(r, depth)
  {
    ReadsVarint(tag, r);
    SkipGroupTag(tag + r, Value(tag), r, depth);
  }

  lemma FlatThen(f: Field, rest: Text)
    requires !f.Group?
    ensures Flat(f) + rest == f.tag +
      (match f
       case Number(_, value) => value + rest
       case Fixed64(_, data) => data + rest
       case Delimited(_, length, data) => length + (data + rest)
       case Fixed32(_, data) => data + rest)
  {
  }

  lemma SkipsPlain(f: Field, rest: Text, depth: nat)
    requires Good(f) && !f.Group?
    ensures SkipField(Flat(f) + rest, depth) == Closed(rest, depth + 1)
  {
    FlatThen(f, rest);
    match f
    case Number(tag, value) =>
      SkipTag(tag, 0, value + rest, depth);
      ReadsVarint(value, rest);
    case Fixed64(tag, data) =>
      SkipTag(tag, 1, data + rest, depth);
      assert (data + rest)[8..] == rest;
    case Delimited(tag, length, data) =>
      SkipTag(tag, 2, length + (data + rest), depth);
      ReadsVarint(length, data + rest);
      assert (data + rest)[|data|..] == rest;
    case Fixed32(tag, data) =>
      SkipTag(tag, 5, data + rest, depth);
      assert (data + rest)[4..] == rest;
  }

  lemma GroupThen(f: Field, rest: Text)
    requires f.Group?
    ensures Flat(f) + rest == f.tag + (FlatAll(f.inner) + (f.close + rest))
  {
  }

  lemma ConsThen(f: Field, fs: Fields, rest: Text)
    ensures FlatAll(Cons(f, fs)) + rest == Flat(f) + (FlatAll(fs) + rest)
  {
    Associative(Flat(f), FlatAll(fs), rest);
  }

  lemma {:induction false} SkipsOne(f: Field, rest: Text, depth: nat)
    requires Good(f)
    ensures SkipField(Flat(f) + rest, depth) == Closed(rest, depth + 1)
    decreases f, 0
  {
    if f.Group? {
      GroupThen(f, rest);
      SkipOpen(f.tag, FlatAll(f.inner) + (f.close + rest), depth);
      SkipsAll(f.inner, f.close, rest, depth + 1);
    } else {
      SkipsPlain(f, rest, depth);
    }
  }

  lemma {:induction false} SkipsAll(fs: Fields, close: Text, rest: Text, depth: nat)
    requires GoodAll(fs) && IsTag(close, 4) && depth >= 1
    ensures SkipField(FlatAll(fs) + (close + rest), depth) == Closed(rest, depth)
    decreases fs, 1
  {
    match fs
    case Nil =>
      assert [] + (close + rest) == close + rest;
      SkipClose(close, rest, depth);
    case Cons(f, tail) =>
      ConsThen(f, tail, close + rest);
      SkipsOne(f, FlatAll(tail) + (close + rest), depth);
      SkipsAll(tail, close, rest, depth);
  }

  // ---- whatever is skipped is a field --------------------------------------------------------------------

  lemma CutOff(r: Text, n: nat)
    requires n <= |r|
    ensures r == r[..n] + r[n..]
  {
  }

  lemma ValueOf(tag: Text, wireType: nat, r: Text, depth: nat) returns (f: Field, rest: Text)
    requires IsTag(tag, wireType) && wireType != 3 && wireType != 4 && SkipValue(wireType, r, depth).Some?
    ensures Good(f) && !f.Group? && f.tag == tag && tag + r == Flat(f) + rest
  {
    if wireType == 0 {
      var value;
      value, rest := VarintRead(r);
      f := Number(tag, value);
    } else if wireType == 1 {
      f, rest := Fixed64(tag, r[..8]), r[8..];
      CutOff(r, 8);
    } else if wireType == 2 {
      var length, after := VarintRead(r);
      var n := Value(length);
      f, rest := Delimited(tag, length, after[..n]), after[n..];
      CutOff(after, n);
    } else {
      f, rest := Fixed32(tag, r[..4]), r[4..];
      CutOff(r, 4);
    }
    FlatThen(f, rest);
  }

  lemma PlainOf(tag: Text, wireType: nat, r: Text, depth: nat) returns (f: Field, rest: Text)
    requires IsTag(tag, wireType) && wireType != 3 && wireType != 4 && SkipField(tag + r, depth).Some?
    ensures Good(f) && !f.Group? && f.tag == tag && tag + r == Flat(f) + rest
    ensures SkipField(tag + r, depth) == Closed(rest, depth + 1)
  {
    SkipTag(tag, wireType, r, depth);
    f, rest := ValueOf(tag, wireType, r, depth);
    SkipsPlain(f, rest, depth);
  }

  lemma Grouped(d: Text, tag: Text, inner: Fields, close: Text, rest: Text) returns (f: Field)
    requires IsTag(tag, 3) && GoodAll(inner) && IsTag(close, 4) && d == tag + (FlatAll(inner) + (close + rest))
    ensures f == Group(tag, inner, close) && Good(f) && d == Flat(f) + rest && |rest| < |d|
  {
    f := Group(tag, inner, close);
    GroupThen(f, rest);
  }

  /** The rest of a group, up to the tag that ends it. */
  lemma {:induction false} GroupOf(d: Text, depth: nat) returns (fs: Fields, close: Text, rest: Text)
    requires depth >= 1 && SkipField(d, depth).Some?
    ensures GoodAll(fs) && IsTag(close, 4) && d == FlatAll(fs) + (close + rest)
    ensures SkipField(d, depth) == Closed(rest, depth)
    decreases |d|, 1
  {
    var tag, r := VarintRead(d);
    if Value(tag) % 8 == 4 {
      SkipClose(tag, r, depth);
      fs, close, rest := Nil, tag, r;
      assert [] + (close + rest) == close + rest;
    } else {
      var f, after := NextInGroup(d, tag, r, depth);
      fs, close, rest := GroupOf(after, depth);
      ConsThen(f, fs, close + rest);
      fs := Cons(f, fs);
    }
  }

  lemma {:induction false} NextInGroup(d: Text, tag: Text, r: Text, depth: nat) returns (f: Field, after: Text)
    requires depth >= 1 && SkipField(d, depth).Some? && d == tag + r && IsVarint(tag) && Value(tag) % 8 != 4
    ensures Good(f) && d == Flat(f) + after && |after| < |d|
    ensures SkipField(d, depth) == SkipField(after, depth)
    decreases |d|, 0
  {
    if Value(tag) % 8 == 3 {
      SkipOpen(tag, r, depth);
      f, after := InnerGroup(tag, r, depth);
    } else {
      f, after := PlainNext(tag, r, depth);
    }
  }

  lemma PlainNext(tag: Text, r: Text, depth: nat) returns (f: Field, after: Text)
    requires depth >= 1 && IsVarint(tag) && Value(tag) % 8 != 3 && Value(tag) % 8 != 4
    requires SkipField(tag + r, depth).Some?
    ensures Good(f) && tag + r == Flat(f) + after && |after| < |tag + r|
    ensures SkipField(tag + r, depth) == SkipField(after, depth)
  {
    f, after := PlainOf(tag, Value(tag) % 8, r, depth);
  }

  lemma ClosedInner(r: Text, depth: nat)
    requires depth >= 1
    ensures Closed(r, depth + 1) == SkipField(r, depth)
  {
  }

  lemma {:induction false} InnerGroup(tag: Text, r: Text, depth: nat) returns (f: Field, after: Text)
    requires depth >= 1 && IsTag(tag, 3) && SkipField(r, depth + 1).Some?
    ensures Good(f) && tag + r == Flat(f) + after && |after| < |tag + r|
    ensures SkipField(r, depth + 1) == SkipField(after, depth)
    decreases |r|, 2
  {
    var inner, close;
    inner, close, after := GroupOf(r, depth + 1);
    ClosedInner(after, depth);
    f := Grouped(tag + r, tag, inner, close, after);
  }

  lemma FieldOf(d: Text) returns (f: Field, rest: Text)
    requires SkipField(d, 0).Some?
    ensures Good(f) && d == Flat(f) + rest && SkipField(d, 0) == Some(rest)
  {
    var tag, r := VarintRead(d);
    var wireType := Value(tag) % 8;
    SkipTag(tag, wireType, r, 0);
    if wireType == 3 {
      var inner, close;
      inner, close, rest := GroupOf(r, 1);
      f := Grouped(d, tag, inner, close, rest);
    } else {
      f, rest := PlainOf(tag, wireType, r, 0);
    }
  }

  /** Skipping gets past exactly the well-formed fields, each to its own end. */
  lemma SkipsExactly(d: Text, rest: Text)
    ensures SkipField(d, 0) == Some(rest) <==> exists f :: Good(f) && d == Flat(f) + rest
  {
    if SkipField(d, 0) == Some(rest) {
      var f, _ := FieldOf(d);
    }
    forall f | Good(f) && d == Flat(f) + rest
      ensures SkipField(d, 0) == Some(rest)
    {
      SkipsOne(f, rest, 0);
    }
  }

  // ---- messages ------------------------------------------------------------------------------------------

  ghost function Num(f: Field): int {
    Int32(Value(f.tag) / 8)
  }

  /** A field that a message with the length-delimited fields 1 to `max` takes in, known or not. */
  ghost predicate Takes(f: Field, max: nat) {
    Good(f) && Num(f) > 0 && (Num(f) <= max ==> f.Delimited?)
  }

  ghost function ItemOf(f: Field, max: nat): Item
    requires Takes(f, max)
  {
    if Num(f) <= max then Known(Num(f), f.data) else Unknown
  }

  lemma GoodTag(f: Field)
    requires Good(f)
    ensures IsVarint(f.tag) && Value(f.tag) % 8 != 4 && (Value(f.tag) % 8 == 2 <==> f.Delimited?)
    ensures f.tag <= Flat(f)
  {
  }

  lemma TagFirst(f: Field, rest: Text) returns (r: Text)
    requires Good(f)
    ensures Flat(f) + rest == f.tag + r && GetVarint(Flat(f) + rest, 0, 0) == Some((Value(f.tag), r))
  {
    GoodTag(f);
    r := Flat(f)[|f.tag|..] + rest;
    assert Flat(f) == f.tag + Flat(f)[|f.tag|..];
    Associative(f.tag, Flat(f)[|f.tag|..], rest);
    ReadsVarint(f.tag, r);
  }

  lemma KnownItem(f: Field, rest: Text, max: nat)
    requires Takes(f, max) && Num(f) <= max
    ensures NextItem(Flat(f) + rest, max) == Some((Known(Num(f), f.data), rest))
  {
    FlatThen(f, rest);
    ReadsVarint(f.tag, f.length + (f.data + rest));
    ReadsVarint(f.length, f.data + rest);
    assert (f.data + rest)[..|f.data|] == f.data && (f.data + rest)[|f.data|..] == rest;
  }

  lemma ItemIs(f: Field, rest: Text, max: nat)
    requires Takes(f, max)
    ensures NextItem(Flat(f) + rest, max) == Some((ItemOf(f, max), rest))
  {
    if Num(f) <= max {
      KnownItem(f, rest, max);
    } else {
      var _ := TagFirst(f, rest);
      GoodTag(f);
      SkipsOne(f, rest, 0);
    }
  }

  lemma KnownRead(d: Text, max: nat) returns (f: Field, rest: Text)
    requires NextItem(d, max).Some? && NextItem(d, max).value.0.Known?
    ensures Takes(f, max) && Num(f) <= max && d == Flat(f) + rest
  {
    var tag, r := VarintRead(d);
    var length, after := VarintRead(r);
    CutOff(after, Value(length));
    f, rest := Delimited(tag, length, after[..Value(length)]), after[Value(length)..];
    FlatThen(f, rest);
  }

  lemma UnknownRead(d: Text, max: nat) returns (f: Field, rest: Text)
    requires NextItem(d, max).Some? && NextItem(d, max).value.0.Unknown?
    ensures Takes(f, max) && d == Flat(f) + rest
  {
    f, rest := FieldOf(d);
    var _ := TagFirst(f, rest);
  }

  lemma ItemRead(d: Text, max: nat) returns (f: Field, rest: Text)
    requires NextItem(d, max).Some?
    ensures Takes(f, max) && d == Flat(f) + rest && NextItem(d, max) == Some((ItemOf(f, max), rest))
  {
    if NextItem(d, max).value.0.Known? {
      f, rest := KnownRead(d, max);
    } else {
      f, rest := UnknownRead(d, max);
    }
    ItemIs(f, rest, max);
  }

  ghost predicate TakesAll(fs: Fields, max: nat) {
    match fs
    case Nil => true
    case Cons(f, rest) => Takes(f, max) && TakesAll(rest, max)
  }

  /** Fields taken in one after another; unknown ones change nothing. */
  ghost function Apply<M>(sch: Schema<M>, fs: Fields, m: M): Option<M>
    requires TakesAll(fs, sch.max)
    decreases fs
  {
    match fs
    case Nil => Some(m)
    case Cons(f, rest) =>
      if Num(f) > sch.max then Apply(sch, rest, m)
      else
        match sch.put(m, Num(f), f.data)
        case None => None
        case Some(m') => Apply(sch, rest, m')
  }

  lemma {:induction false} DecodesFields<M>(sch: Schema<M>, fs: Fields, m: M)
    requires TakesAll(fs, sch.max)
    ensures Decode(sch, FlatAll(fs), m) == Apply(sch, fs, m)
    decreases fs
  {
    match fs
    case Nil =>
    case Cons(f, rest) =>
      ItemIs(f, FlatAll(rest), sch.max);
      if Num(f) > sch.max {
        DecodesFields(sch, rest, m);
      } else if sch.put(m, Num(f), f.data).Some? {
        DecodesFields(sch, rest, sch.put(m, Num(f), f.data).value);
      }
  }

  lemma {:induction false} FieldsOf<M>(sch: Schema<M>, d: Text, m: M) returns (fs: Fields)
    requires Decode(sch, d, m).Some?
    ensures TakesAll(fs, sch.max) && d == FlatAll(fs)
    decreases |d|
  {
    if d == [] {
      fs := Nil;
    } else {
      var f, rest := ItemRead(d, sch.max);
      var tail;
      if Num(f) > sch.max {
        tail := FieldsOf(sch, rest, m);
      } else {
        tail := FieldsOf(sch, rest, sch.put(m, Num(f), f.data).value);
      }
      fs := Cons(f, tail);
    }
  }

  /** The bytes of the fields of a message. */
  ghost predicate IsMessage(fs: Fields, max: nat, d: Text) {
    TakesAll(fs, max) && d == FlatAll(fs)
  }

  /** Decoding succeeds exactly on the bytes of a sequence of fields that can be taken in, and takes them in. */
  lemma DecodesExactly<M>(sch: Schema<M>, d: Text, m: M, m': M)
    ensures Decode(sch, d, m) == Some(m') <==>
      exists fs :: IsMessage(fs, sch.max, d) && Apply(sch, fs, m) == Some(m')
  {
    if Decode(sch, d, m) == Some(m') {
      var fs := FieldsOf(sch, d, m);
      DecodesFields(sch, fs, m);
      assert IsMessage(fs, sch.max, d);
    }
    forall fs | IsMessage(fs, sch.max, d) && Apply(sch, fs, m) == Some(m')
      ensures Decode(sch, d, m) == Some(m')
    {
      DecodesFields(sch, fs, m);
    }
  }

  /** Splicing any well-formed field with an unknown number in at a field boundary changes nothing. */
  lemma UnknownFieldTransparent<M>(sch: Schema<M>, a: Text, u: Field, b: Text, m: M)
    requires Decode(sch, a, m).Some? && Good(u) && Num(u) > sch.max
    ensures Decode(sch, a + Flat(u) + b, m) == Decode(sch, a + b, m)
  {
    ItemIs(u, [], sch.max);
    assert Flat(u) + [] == Flat(u);
    Spliced(sch, a, Flat(u), b, m);
    Associative(a, Flat(u), b);
  }
}
