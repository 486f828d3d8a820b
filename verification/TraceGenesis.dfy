/** The store of class traces as bytes under their hashes, its ordered listing, and the module's genesis. */
module TraceGenesis {
  import opened Bytes
  import opened ClassTraces
  import opened Messages
  import Codec

  // ---- the order of traces -------------------------------------------------------------------------------

  predicate InOrder(t: ClassTrace, u: ClassTrace) {
    !Less(FullClassPath(u), FullClassPath(t))
  }

  predicate Sorted(ts: seq<ClassTrace>) {
    forall i, j :: 0 <= i < j < |ts| ==> InOrder(ts[i], ts[j])
  }

  /** No two traces have the same full path. */
  predicate DistinctPaths(ts: seq<ClassTrace>) {
    forall i, j :: 0 <= i < j < |ts| ==> FullClassPath(ts[i]) != FullClassPath(ts[j])
  }

  /** Into a sorted sequence, behind everything that is not larger. */
  function Insert(ts: seq<ClassTrace>, t: ClassTrace): seq<ClassTrace> {
    if ts == [] || InOrder(ts[|ts| - 1], t) then ts + [t]
    else Insert(ts[..|ts| - 1], t) + [ts[|ts| - 1]]
  }

  lemma {:induction false} InsertPermutes(ts: seq<ClassTrace>, t: ClassTrace)
    ensures multiset(Insert(ts, t)) == multiset(ts) + multiset{t}
  {
    if ts != [] && !InOrder(ts[|ts| - 1], t) {
      InsertPermutes(ts[..|ts| - 1], t);
      assert ts == ts[..|ts| - 1] + [ts[|ts| - 1]];
    }
  }

  lemma SortedAppend(ts: seq<ClassTrace>, t: ClassTrace)
    requires Sorted(ts) && forall u :: u in ts ==> InOrder(u, t)
    ensures Sorted(ts + [t])
  {
    forall i, j | 0 <= i < j < |ts| + 1
      ensures InOrder((ts + [t])[i], (ts + [t])[j])
    {
      assert j == |ts| ==> ts[i] in ts;
    }
  }

  lemma OrderTransitive(t: ClassTrace, u: ClassTrace, v: ClassTrace)
    requires InOrder(t, u) && InOrder(u, v)
    ensures InOrder(t, v)
  {
    LessTransitive(FullClassPath(t), FullClassPath(u), FullClassPath(v));
  }

  lemma {:induction false} InsertSorts(ts: seq<ClassTrace>, t: ClassTrace)
    requires Sorted(ts)
    ensures Sorted(Insert(ts, t))
  {
    if ts != [] {
      var front, last := ts[..|ts| - 1], ts[|ts| - 1];
      if InOrder(last, t) {
        forall u | u in ts
          ensures InOrder(u, t)
        {
          var i :| 0 <= i < |ts| && ts[i] == u;
          if i < |ts| - 1 {
            OrderTransitive(u, last, t);
          }
        }
        SortedAppend(ts, t);
      } else {
        InsertSorts(front, t);
        InsertPermutes(front, t);
        LessTotal(FullClassPath(t), FullClassPath(last));
        forall u | u in Insert(front, t)
          ensures InOrder(u, last)
        {
          assert u in multiset(Insert(front, t));
          assert u in multiset(front) || u == t;
          assert u in front || u == t;
        }
        SortedAppend(Insert(front, t), last);
      }
    }
  }

  /** The array while the element t, found at i, is on its way down at j. */
  ghost function Sifting(s: seq<ClassTrace>, j: nat, i: nat, t: ClassTrace): (r: seq<ClassTrace>)
    requires j <= i < |s|
    ensures |r| == |s| && r[j] == t && (j > 0 ==> r[j - 1] == s[j - 1])
  {
    s[..j] + [t] + s[j..i] + s[i + 1..]
  }

  lemma SiftSwap(s: seq<ClassTrace>, j: nat, i: nat, t: ClassTrace)
    requires 0 < j <= i < |s|
    ensures Sifting(s, j, i, t)[j := s[j - 1]][j - 1 := t] == Sifting(s, j - 1, i, t)
  {
  }

  lemma InsertDown(s: seq<ClassTrace>, j: nat, t: ClassTrace)
    requires 0 < j <= |s| && !InOrder(s[j - 1], t)
    ensures Insert(s[..j], t) == Insert(s[..j - 1], t) + [s[j - 1]]
  {
    assert s[..j][..j - 1] == s[..j - 1];
  }

  lemma InsertStays(s: seq<ClassTrace>, j: nat, t: ClassTrace)
    requires j <= |s| && (j > 0 ==> InOrder(s[j - 1], t))
    ensures Insert(s[..j], t) == s[..j] + [t]
  {
  }

  ghost predicate Sifted(s: seq<ClassTrace>, now: seq<ClassTrace>, j: nat, i: nat, t: ClassTrace) {
    j <= i < |s| && now == Sifting(s, j, i, t) && Insert(s[..i], t) == Insert(s[..j], t) + s[j..i]
  }

  lemma SiftStep(s: seq<ClassTrace>, now: seq<ClassTrace>, j: nat, i: nat, t: ClassTrace)
    requires Sifted(s, now, j, i, t) && j > 0 && !InOrder(now[j - 1], now[j])
    ensures Sifted(s, now[j := now[j - 1]][j - 1 := now[j]], j - 1, i, t)
  {
    SiftSwap(s, j, i, t);
    InsertDown(s, j, t);
    assert s[j - 1..i] == [s[j - 1]] + s[j..i];
    Regroup(Insert(s[..j - 1], t), s[j - 1], s[j..i]);
  }

  lemma Regroup(x: seq<ClassTrace>, y: ClassTrace, z: seq<ClassTrace>)
    ensures (x + [y]) + z == x + ([y] + z)
  {
  }

  lemma SiftDone(s: seq<ClassTrace>, now: seq<ClassTrace>, j: nat, i: nat, t: ClassTrace)
    requires Sifted(s, now, j, i, t) && (j > 0 ==> InOrder(now[j - 1], now[j]))
    ensures now == Insert(s[..i], t) + s[i + 1..]
  {
    InsertStays(s, j, t);
  }

  /** Moves the element at i down to its place, swapping neighbours. */
  method SiftDown(a: array<ClassTrace>, i: nat)
    requires i < a.Length
    modifies a
    ensures a[..] == Insert(old(a[..])[..i], old(a[i])) + old(a[..])[i + 1..]
  {
    ghost var s, t := a[..], a[i];
    var j := i;
    while j > 0 && !InOrder(a[j - 1], a[j])
      invariant Sifted(s, a[..], j, i, t)
    {
      ghost var now := a[..];
      assert a[j] == now[j] && a[j - 1] == now[j - 1];
      SiftStep(s, now, j, i, t);
      a[j], a[j - 1] := a[j - 1], a[j];
      assert a[..] == now[j := now[j - 1]][j - 1 := now[j]];
      j := j - 1;
    }
    SiftDone(s, a[..], j, i, t);
  }

  lemma Reassemble(s: seq<ClassTrace>, i: nat)
    requires i < |s|
    ensures multiset(s) == multiset(s[..i]) + multiset{s[i]} + multiset(s[i + 1..])
  {
    assert s == s[..i] + [s[i]] + s[i + 1..];
  }

  lemma SortStep(s: seq<ClassTrace>, i: nat)
    requires i < |s| && Sorted(s[..i])
    ensures var s' := Insert(s[..i], s[i]) + s[i + 1..];
            |s'| == |s| && Sorted(s'[..i + 1]) && multiset(s') == multiset(s)
  {
    var x, y := Insert(s[..i], s[i]), s[i + 1..];
    InsertSorts(s[..i], s[i]);
    InsertPermutes(s[..i], s[i]);
    assert |x| == |multiset(x)| == i + 1;
    assert (x + y)[..i + 1] == x;
    assert multiset(x + y) == multiset(x) + multiset(y);
    Reassemble(s, i);
  }

  /** Sorts in place by the full path. */
  method Sort(a: array<ClassTrace>)
    modifies a
    ensures Sorted(a[..]) && multiset(a[..]) == multiset(old(a[..]))
  {
    for i := 0 to a.Length
      invariant Sorted(a[..i]) && multiset(a[..]) == multiset(old(a[..]))
    {
      ghost var s := a[..];
      assert s[..i] == a[..i] && s[i] == a[i] && s[i + 1..] == a[i + 1..];
      SortStep(s, i);
      SiftDown(a, i);
      assert a[..][..i + 1] == a[..i + 1];
    }
    assert a[..a.Length] == a[..];
  }

  // ---- sorted permutations are unique ---------------------------------------------------------------------

  lemma FirstOf(ts: seq<ClassTrace>, us: seq<ClassTrace>)
    requires ts != [] && Sorted(ts) && Sorted(us) && DistinctPaths(ts) && multiset(ts) == multiset(us)
    ensures us != [] && ts[0] == us[0]
  {
    assert ts[0] in multiset(us);
    assert us[0] in multiset(ts);
    var i :| 0 <= i < |us| && us[i] == ts[0];
    var j :| 0 <= j < |ts| && ts[j] == us[0];
    LeastFirst(us, i);
    LeastFirst(ts, j);
    LessTotal(FullClassPath(ts[0]), FullClassPath(us[0]));
  }

  lemma LeastFirst(ts: seq<ClassTrace>, i: nat)
    requires Sorted(ts) && i < |ts|
    ensures InOrder(ts[0], ts[i])
  {
    LessTotal(FullClassPath(ts[0]), FullClassPath(ts[0]));
  }

  lemma WithoutFirst(ts: seq<ClassTrace>)
    requires ts != []
    ensures multiset(ts[1..]) == multiset(ts) - multiset{ts[0]}
    ensures Sorted(ts) ==> Sorted(ts[1..])
    ensures DistinctPaths(ts) ==> DistinctPaths(ts[1..])
  {
    assert ts == [ts[0]] + ts[1..];
  }

  lemma {:induction false} SortedUnique(ts: seq<ClassTrace>, us: seq<ClassTrace>)
    requires Sorted(ts) && Sorted(us) && DistinctPaths(ts) && multiset(ts) == multiset(us)
    ensures ts == us
    decreases |ts|
  {
    assert |ts| == |multiset(ts)| == |us|;
    if ts != [] {
      FirstOf(ts, us);
      WithoutFirst(ts);
      WithoutFirst(us);
      SortedUnique(ts[1..], us[1..]);
      FromFirst(ts, us);
    }
  }

  lemma FromFirst(ts: seq<ClassTrace>, us: seq<ClassTrace>)
    requires ts != [] && us != [] && ts[0] == us[0] && ts[1..] == us[1..]
    ensures ts == us
  {
    assert ts == [ts[0]] + ts[1..] && us == [us[0]] + us[1..];
  }

  // ---- the store --------------------------------------------------------------------------------------------

  type Sha = Text -> Digest

  /** The bound port, and encoded traces under their hashes. */
  datatype Entries = Entries(port: Text, traces: map<Text, Text>)

  const EMPTY: Entries := Entries([], map[])

  function Hash(sha: Sha, t: ClassTrace): Text {
    sha(FullClassPath(t))
  }

  function SetTraces(sha: Sha, m: map<Text, Text>, ts: seq<ClassTrace>): map<Text, Text> {
    if ts == [] then m
    else
      var last := ts[|ts| - 1];
      SetTraces(sha, m, ts[..|ts| - 1])[Hash(sha, last) := EncodeTrace(last)]
  }

  function Init(sha: Sha, g: GenesisState, e: Entries): Entries {
    Entries(g.portId, SetTraces(sha, e.traces, g.traces))
  }

  /** Every entry decodes; entries fit in memory. */
  ghost predicate Readable(m: map<Text, Text>) {
    forall k :: k in m ==> |m[k]| < TWO63 && DecodeTrace(m[k]).Some?
  }

  /** The traces that the entries hold. */
  ghost function View(m: map<Text, Text>): map<Text, ClassTrace>
    requires Readable(m)
  {
    map k | k in m :: DecodeTrace(m[k]).value
  }

  ghost predicate Enumerates(m: map<Text, Text>, keys: seq<Text>) {
    Distinct(keys) && forall k :: k in keys <==> k in m
  }

  ghost function TracesAt(m: map<Text, Text>, keys: seq<Text>): seq<ClassTrace>
    requires Readable(m) && forall k :: k in keys ==> k in m
  {
    seq(|keys|, i requires 0 <= i < |keys| => DecodeTrace(m[keys[i]]).value)
  }

  /** All traces of the store, sorted. */
  ghost predicate Lists(m: map<Text, Text>, ts: seq<ClassTrace>)
    requires Readable(m)
  {
    Sorted(ts) && exists keys :: Enumerates(m, keys) && multiset(ts) == multiset(TracesAt(m, keys))
  }

  ghost predicate Exports(e: Entries, g: GenesisState)
    requires Readable(e.traces)
  {
    g.portId == e.port && Lists(e.traces, g.traces)
  }

  /** Content-addressed: each entry is a trace's encoding under that trace's hash. */
  ghost predicate Addressed(sha: Sha, m: map<Text, Text>)
    requires Readable(m)
  {
    forall k :: k in m ==>
      var t := DecodeTrace(m[k]).value;
      m[k] == EncodeTrace(t) && k == Hash(sha, t)
  }

  predicate Small(ts: seq<ClassTrace>) {
    forall t :: t in ts ==> TraceSize(t) < TWO63
  }

  // ---- what an import writes -----------------------------------------------------------------------------------

  /** The entry that a trace leaves if no later trace has its hash. */
  lemma {:induction false} SetTracesHas(sha: Sha, ts: seq<ClassTrace>, k: Text) returns (i: nat)
    requires k in SetTraces(sha, map[], ts)
    ensures i < |ts| && k == Hash(sha, ts[i]) && SetTraces(sha, map[], ts)[k] == EncodeTrace(ts[i])
  {
    var n := |ts| - 1;
    if k == Hash(sha, ts[n]) {
      i := n;
    } else {
      i := SetTracesHas(sha, ts[..n], k);
    }
  }

  lemma {:induction false} SetTracesKey(sha: Sha, ts: seq<ClassTrace>, i: nat)
    requires i < |ts|
    ensures Hash(sha, ts[i]) in SetTraces(sha, map[], ts)
  {
    var n := |ts| - 1;
    if i < n {
      SetTracesKey(sha, ts[..n], i);
    }
  }

  ghost predicate DistinctHashes(sha: Sha, ts: seq<ClassTrace>) {
    forall i, j :: 0 <= i < j < |ts| ==> Hash(sha, ts[i]) != Hash(sha, ts[j])
  }

  lemma LastHash(sha: Sha, front: seq<ClassTrace>, t: ClassTrace)
    ensures DistinctHashes(sha, front + [t]) <==>
      DistinctHashes(sha, front) && Hash(sha, t) !in SetTraces(sha, map[], front)
  {
    var ts, n := front + [t], |front|;
    assert forall i :: 0 <= i < n ==> ts[i] == front[i];
    if Hash(sha, t) in SetTraces(sha, map[], front) {
      var i := SetTracesHas(sha, front, Hash(sha, t));
      assert Hash(sha, ts[i]) == Hash(sha, ts[n]);
    } else {
      forall i | 0 <= i < n
        ensures Hash(sha, front[i]) != Hash(sha, t)
      {
        SetTracesKey(sha, front, i);
      }
    }
  }

  lemma MapSize(m: map<Text, Text>, k: Text, v: Text)
    ensures |m[k := v]| == if k in m then |m| else |m| + 1
  {
    assert m[k := v].Keys == m.Keys + {k};
    assert |m.Keys| == |m| && |m[k := v].Keys| == |m[k := v]|;
  }

  lemma {:induction false} SetTracesSize(sha: Sha, ts: seq<ClassTrace>)
    ensures |SetTraces(sha, map[], ts)| <= |ts|
    ensures |SetTraces(sha, map[], ts)| == |ts| <==> DistinctHashes(sha, ts)
  {
    if ts != [] {
      var front, last := ts[..|ts| - 1], ts[|ts| - 1];
      assert ts == front + [last];
      SetTracesSize(sha, front);
      LastHash(sha, front, last);
      MapSize(SetTraces(sha, map[], front), Hash(sha, last), EncodeTrace(last));
    }
  }

  lemma DecodeEncoded(t: ClassTrace, d: Text)
    requires d == EncodeTrace(t) && (TraceSize(t) < TWO63 || |d| < TWO63)
    ensures DecodeTrace(d) == Some(t) && |d| < TWO63
  {
    TraceLength(t);
    TraceRoundTrip(t);
  }

  lemma SetTracesReadable(sha: Sha, ts: seq<ClassTrace>)
    requires Small(ts)
    ensures Readable(SetTraces(sha, map[], ts)) && Addressed(sha, SetTraces(sha, map[], ts))
  {
    var m := SetTraces(sha, map[], ts);
    forall k | k in m
      ensures |m[k]| < TWO63 && DecodeTrace(m[k]).Some?
      ensures m[k] == EncodeTrace(DecodeTrace(m[k]).value) && k == Hash(sha, DecodeTrace(m[k]).value)
    {
      var i := SetTracesHas(sha, ts, k);
      DecodeEncoded(ts[i], m[k]);
    }
  }

  // ---- genesis round trips ----------------------------------------------------------------------------------------

  lemma ListsHolds(m: map<Text, Text>, ts: seq<ClassTrace>, t: ClassTrace)
    requires Readable(m) && Lists(m, ts)
    ensures t in ts <==> exists k :: k in m && DecodeTrace(m[k]) == Some(t)
  {
    var keys :| Enumerates(m, keys) && multiset(ts) == multiset(TracesAt(m, keys));
    var us := TracesAt(m, keys);
    assert t in ts <==> t in multiset(ts);
    assert t in us <==> t in multiset(us);
    if t in us {
      var i :| 0 <= i < |us| && us[i] == t;
      assert keys[i] in keys;
    }
    if k :| k in m && DecodeTrace(m[k]) == Some(t) {
      var i :| 0 <= i < |keys| && keys[i] == k;
      assert us[i] == t;
    }
  }

  lemma AddressedRestores(sha: Sha, m: map<Text, Text>, ts: seq<ClassTrace>)
    requires Readable(m) && Lists(m, ts) && Addressed(sha, m)
    ensures SetTraces(sha, map[], ts) == m
  {
    var r := SetTraces(sha, map[], ts);
    forall k | k in r
      ensures k in m && r[k] == m[k]
    {
      var i := SetTracesHas(sha, ts, k);
      ListsHolds(m, ts, ts[i]);
      var k' :| k' in m && DecodeTrace(m[k']) == Some(ts[i]);
      assert k' == Hash(sha, ts[i]) && m[k'] == EncodeTrace(ts[i]);
    }
    forall k | k in m
      ensures k in r
    {
      var t := DecodeTrace(m[k]).value;
      ListsHolds(m, ts, t);
      var i :| 0 <= i < |ts| && ts[i] == t;
      SetTracesKey(sha, ts, i);
    }
  }

  lemma RestoredAddressed(sha: Sha, ts: seq<ClassTrace>, m: map<Text, Text>)
    requires Readable(m) && m == SetTraces(sha, map[], ts)
    ensures Addressed(sha, m)
  {
    forall k | k in m
      ensures m[k] == EncodeTrace(DecodeTrace(m[k]).value) && k == Hash(sha, DecodeTrace(m[k]).value)
    {
      var i := SetTracesHas(sha, ts, k);
      DecodeEncoded(ts[i], m[k]);
    }
  }

  /** Exporting and importing restores the port and the traces exactly when the store is content-addressed. */
  lemma ExportThenInit(sha: Sha, e: Entries, g: GenesisState)
    requires Readable(e.traces) && Exports(e, g)
    ensures Init(sha, g, EMPTY) == e <==> Addressed(sha, e.traces)
  {
    if Addressed(sha, e.traces) {
      AddressedRestores(sha, e.traces, g.traces);
    }
    if SetTraces(sha, map[], g.traces) == e.traces {
      RestoredAddressed(sha, g.traces, e.traces);
    }
  }

  /** A content-addressed store has one export. */
  lemma ExportUnique(sha: Sha, e: Entries, g: GenesisState, g': GenesisState)
    requires Readable(e.traces) && Addressed(sha, e.traces) && Exports(e, g) && Exports(e, g')
    ensures g == g'
  {
    DistinctListing(sha, e.traces, g.traces);
    DistinctListing(sha, e.traces, g'.traces);
    forall t
      ensures t in g.traces <==> t in g'.traces
    {
      ListsHolds(e.traces, g.traces, t);
      ListsHolds(e.traces, g'.traces, t);
    }
    SameElements(g.traces, g'.traces);
    SortedUnique(g.traces, g'.traces);
  }

  lemma {:induction false} Multiplicity<T>(a: seq<T>, x: T)
    requires Distinct(a)
    ensures multiset(a)[x] == if x in a then 1 else 0
  {
    if a != [] {
      assert a == [a[0]] + a[1..];
      assert Distinct(a[1..]) && a[0] !in a[1..];
      Multiplicity(a[1..], x);
    }
  }

  lemma SameElements<T>(a: seq<T>, b: seq<T>)
    requires Distinct(a) && Distinct(b) && forall x :: x in a <==> x in b
    ensures multiset(a) == multiset(b)
  {
    forall x
      ensures multiset(a)[x] == multiset(b)[x]
    {
      Multiplicity(a, x);
      Multiplicity(b, x);
    }
  }

  lemma DistinctListing(sha: Sha, m: map<Text, Text>, ts: seq<ClassTrace>)
    requires Readable(m) && Addressed(sha, m) && Lists(m, ts)
    ensures Distinct(ts) && DistinctPaths(ts) && DistinctHashes(sha, ts)
  {
    AddressedRestores(sha, m, ts);
    var keys :| Enumerates(m, keys) && multiset(ts) == multiset(TracesAt(m, keys));
    EnumerationSize(m, keys);
    assert |ts| == |multiset(ts)| == |multiset(TracesAt(m, keys))| == |keys|;
    SetTracesSize(sha, ts);
  }

  lemma EnumerationSize(m: map<Text, Text>, keys: seq<Text>)
    requires Enumerates(m, keys)
    ensures |keys| == |m|
  {
    DistinctSize(keys);
    assert (set k | k in keys) == m.Keys;
  }

  lemma {:induction false} DistinctSize(a: seq<Text>)
    requires Distinct(a)
    ensures |set k | k in a| == |a|
  {
    if a != [] {
      assert Distinct(a[1..]) && a[0] !in a[1..];
      DistinctSize(a[1..]);
      assert (set k | k in a) == (set k | k in a[1..]) + {a[0]};
    } else {
      assert (set k | k in a) == {};
    }
  }

  lemma ImportedMembers(sha: Sha, ts: seq<ClassTrace>, us: seq<ClassTrace>, t: ClassTrace)
    requires Small(ts) && DistinctHashes(sha, ts)
    requires Readable(SetTraces(sha, map[], ts)) && Addressed(sha, SetTraces(sha, map[], ts))
    requires Lists(SetTraces(sha, map[], ts), us)
    ensures t in ts <==> t in us
  {
    var m := SetTraces(sha, map[], ts);
    ListsHolds(m, us, t);
    if t in us {
      var k :| k in m && DecodeTrace(m[k]) == Some(t);
      var i := SetTracesHas(sha, ts, k);
      DecodeEncoded(ts[i], m[k]);
    }
    if t in ts {
      var i :| 0 <= i < |ts| && ts[i] == t;
      SetTracesKey(sha, ts, i);
      var j := SetTracesHas(sha, ts, Hash(sha, t));
      assert i == j;
      DecodeEncoded(t, m[Hash(sha, t)]);
    }
  }

  /** Importing and exporting yields the port, and a sorted permutation of the traces exactly when no two of them
      have the same hash. */
  lemma InitThenExport(sha: Sha, g: GenesisState, g': GenesisState)
    requires Small(g.traces) && Readable(Init(sha, g, EMPTY).traces) && Exports(Init(sha, g, EMPTY), g')
    ensures g'.portId == g.portId && Sorted(g'.traces)
    ensures multiset(g'.traces) == multiset(g.traces) <==> DistinctHashes(sha, g.traces)
  {
    var m := SetTraces(sha, map[], g.traces);
    SetTracesReadable(sha, g.traces);
    SetTracesSize(sha, g.traces);
    var keys :| Enumerates(m, keys) && multiset(g'.traces) == multiset(TracesAt(m, keys));
    EnumerationSize(m, keys);
    assert |g'.traces| == |multiset(g'.traces)| == |multiset(TracesAt(m, keys))| == |keys| == |m|;
    assert |g.traces| == |multiset(g.traces)|;
    if DistinctHashes(sha, g.traces) {
      forall t
        ensures t in g.traces <==> t in g'.traces
      {
        ImportedMembers(sha, g.traces, g'.traces, t);
      }
      DistinctListing(sha, m, g'.traces);
      SameElements(g.traces, g'.traces);
    }
  }

  // ---- validation ---------------------------------------------------------------------------------------------------

  /** The host's rules for port and channel identifiers. */
  datatype Rules = Rules(port: Text -> bool, channel: Text -> bool)

  /** Port and channel identifiers in turn. */
  predicate ValidIdentifiers(rules: Rules, ids: seq<Text>) {
    && |ids| != 0 && |ids| % 2 == 0
    && forall i :: 0 <= i < |ids| ==> if i % 2 == 0 then rules.port(ids[i]) else rules.channel(ids[i])
  }

  predicate ValidTrace(rules: Rules, t: ClassTrace) {
    (t.path == [] && t.base != []) || (!Blank(t.base) && ValidIdentifiers(rules, Split(t.path)))
  }

  /** Ports and channels in turn, and then a name that is not blank. */
  ghost predicate ValidPath(rules: Rules, path: Text) {
    var parts := Split(path);
    && |parts| % 2 == 1 && !Blank(parts[|parts| - 1])
    && forall i :: 0 <= i < |parts| - 1 ==> if i % 2 == 0 then rules.port(parts[i]) else rules.channel(parts[i])
  }

  /** The check on a trace is a check on its full path. */
  lemma TraceCheckIs(rules: Rules, t: ClassTrace)
    requires SlashFree(t.base)
    ensures t.path == [] ==> (ValidTrace(rules, t) <==> t.base != [])
    ensures t.path != [] ==> (ValidTrace(rules, t) <==> ValidPath(rules, FullClassPath(t)))
  {
    SplitAtSlash(t.path, t.base);
    SplitSlashFree(t.base);
    if t.path != [] {
      var ids, parts := Split(t.path), Split(FullClassPath(t));
      assert parts == ids + [t.base];
      assert forall i :: 0 <= i < |ids| ==> parts[i] == ids[i];
    }
  }

  ghost predicate ValidTraces(rules: Rules, sha: Sha, ts: seq<ClassTrace>) {
    DistinctHashes(sha, ts) && forall i :: 0 <= i < |ts| ==> ValidTrace(rules, ts[i])
  }

  method ValidateIdentifiers(rules: Rules, ids: seq<Text>) returns (ok: bool)
    ensures ok <==> ValidIdentifiers(rules, ids)
  {
    if |ids| == 0 || |ids| % 2 != 0 {
      return false;
    }
    var i := 0;
    while i < |ids|
      invariant 0 <= i <= |ids| && i % 2 == 0
      invariant forall j :: 0 <= j < i ==> if j % 2 == 0 then rules.port(ids[j]) else rules.channel(ids[j])
    {
      if !rules.port(ids[i]) || !rules.channel(ids[i + 1]) {
        assert i % 2 == 0 && (i + 1) % 2 == 1;
        return false;
      }
      i := i + 2;
    }
    return true;
  }

  method ValidateTraces(rules: Rules, sha: Sha, ts: seq<ClassTrace>) returns (ok: bool)
    ensures ok <==> ValidTraces(rules, sha, ts)
  {
    var seen: set<Text> := {};
    for i := 0 to |ts|
      invariant forall h :: h in seen <==> exists j :: 0 <= j < i && Hash(sha, ts[j]) == h
      invariant forall j, l :: 0 <= j < l < i ==> Hash(sha, ts[j]) != Hash(sha, ts[l])
      invariant forall j :: 0 <= j < i ==> ValidTrace(rules, ts[j])
    {
      var hash := Hash(sha, ts[i]);
      if hash in seen {
        return false;
      }
      if !(ts[i].path == [] && ts[i].base != []) {
        var idsOk := ValidateIdentifiers(rules, Split(ts[i].path));
        if Blank(ts[i].base) || !idsOk {
          assert !ValidTrace(rules, ts[i]);
          return false;
        }
      }
      seen := seen + {hash};
    }
    return true;
  }

  // ---- the keeper ---------------------------------------------------------------------------------------------------

  lemma EntryReads(m: map<Text, Text>, h: Text, t: ClassTrace)
    requires Readable(m) && TraceSize(t) < TWO63
    ensures Readable(m[h := EncodeTrace(t)]) && View(m[h := EncodeTrace(t)]) == View(m)[h := t]
  {
    DecodeEncoded(t, EncodeTrace(t));
  }

  lemma EntryAddressed(sha: Sha, m: map<Text, Text>, t: ClassTrace)
    requires Readable(m) && TraceSize(t) < TWO63 && Readable(m[Hash(sha, t) := EncodeTrace(t)])
    ensures Addressed(sha, m) ==> Addressed(sha, m[Hash(sha, t) := EncodeTrace(t)])
  {
    DecodeEncoded(t, EncodeTrace(t));
  }

  class TraceKeeper {
    const sha: Sha
    var port: Text
    var traces: map<Text, Text>

    constructor (sha: Sha)
      ensures this.sha == sha && State() == EMPTY
    {
      this.sha, port, traces := sha, [], map[];
    }

    function State(): Entries
      reads this
    {
      Entries(port, traces)
    }

    /** The entry reads back as the trace, every other entry as before, and a content-addressed store stays so. */
    method SetClassTrace(t: ClassTrace)
      requires Readable(traces) && TraceSize(t) < TWO63
      modifies this`traces
      ensures traces == old(traces)[Hash(sha, t) := EncodeTrace(t)]
      ensures Readable(traces) && View(traces) == old(View(traces))[Hash(sha, t) := t]
      ensures old(Addressed(sha, traces)) ==> Addressed(sha, traces)
    {
      var bz := Codec.MarshalTrace(t);
      EntryReads(traces, Hash(sha, t), t);
      EntryAddressed(sha, traces, t);
      traces := traces[Hash(sha, t) := bz];
    }

    method GetClassTrace(hash: Text) returns (t: Option<ClassTrace>)
      requires Readable(traces)
      ensures t == if hash in View(traces) then Some(View(traces)[hash]) else None
    {
      if hash !in traces {
        return None;
      }
      var r := Codec.UnmarshalTrace(traces[hash]);
      return Some(r.value);
    }

    /** Used to bring back the entries of a transaction that failed. */
    method Reset(entries: map<Text, Text>)
      modifies this`traces
      ensures traces == entries
    {
      traces := entries;
    }

    method GetAllClassTraces() returns (ts: seq<ClassTrace>)
      requires Readable(traces)
      ensures Lists(traces, ts)
    {
      ts := [];
      ghost var keys: seq<Text> := [];
      var rest := traces.Keys;
      while rest != {}
        invariant Distinct(keys)
        invariant forall k :: k in traces <==> k in rest || k in keys
        invariant forall k :: k in keys ==> k !in rest
        invariant ts == TracesAt(traces, keys)
        decreases |rest|
      {
        var k :| k in rest;
        var r := Codec.UnmarshalTrace(traces[k]);
        ts := ts + [r.value];
        keys := keys + [k];
        rest := rest - {k};
      }
      assert Enumerates(traces, keys);
      var a := new ClassTrace[|ts|](i requires 0 <= i < |ts| => ts[i]);
      assert a[..] == ts;
      Sort(a);
      return a[..];
    }

    method InitGenesis(g: GenesisState)
      modifies this
      ensures State() == Init(sha, g, old(State()))
    {
      port := g.portId;
      ghost var was := traces;
      for i := 0 to |g.traces|
        invariant port == g.portId && traces == SetTraces(sha, was, g.traces[..i])
      {
        assert g.traces[..i + 1][..i] == g.traces[..i];
        var bz := Codec.MarshalTrace(g.traces[i]);
        traces := traces[Hash(sha, g.traces[i]) := bz];
      }
      assert g.traces[..|g.traces|] == g.traces;
    }

    method ExportGenesis() returns (g: GenesisState)
      requires Readable(traces)
      ensures Exports(State(), g)
    {
      var ts := GetAllClassTraces();
      return GenesisState(port, ts);
    }
  }
}
