/** What exports and imports do to the chains of a run. */
module GenesisRuns {
  import opened Bytes
  import opened ClassTraces
  import opened NftStore
  import opened Keys
  import opened TransferSpec
  import opened Network
  import opened NetworkHandlers
  import opened NetworkTheorems
  import opened Growth
  import opened Messages
  import Restore
  import Nfts = NftGenesis
  import Traces = TraceGenesis

  // ---- the NFT module -----------------------------------------------------------------------------------

  /** Native classes and tokens have valid ids, voucher classes are named by their id, tokens have owners and native
      tokens short URIs. */
  ghost predicate Orderly(s: Store) {
    && (forall id :: id in s.denoms ==> s.denoms[id].id == id && NewClass(s.denoms[id]))
    && (forall k :: k in s.nfts ==> Admissible(k) && Presentable(k, s.nfts[k]))
  }

  ghost predicate AllOrderly(w: World) {
    forall x :: x in w.chains ==> Orderly(w.chains[x].nft)
  }

  lemma GrowsOrderly(s: Store, s': Store)
    requires Orderly(s) && Grows(s, s')
    ensures Orderly(s')
  {
  }

  /** Ids stay admissible, and voucher classes carry their id as their name, after every run. */
  lemma RunOrderly(net: Net, w: World, run: seq<Action>, x: nat)
    requires ValidNet(net) && Inv(net, w) && AllOrderly(w) && x in w.chains
    ensures x in Run(net, w, run).chains && Orderly(Run(net, w, run).chains[x].nft)
    ensures Nfts.AdmissibleStore(Run(net, w, run).chains[x].nft)
  {
    RunGrows(net, w, run);
    GrowsOrderly(w.chains[x].nft, Run(net, w, run).chains[x].nft);
  }

  lemma VoucherRefused(s: Store, cs: seq<Nfts.Collection>, id: Text)
    requires Orderly(s) && Nfts.Exports(s, cs) && id in s.denoms && VoucherId(id)
    ensures !Nfts.ValidGenesis(cs)
  {
    assert id[3] == SLASH && SLASH in id;
    assert !ValidId(id) && s.denoms[id].name == id;
    Nfts.VoucherNotImportable(s, cs, id);
  }

  /** After every run, a chain that holds a voucher class has no export that can be imported. */
  lemma VoucherChainNotImportable(net: Net, w: World, run: seq<Action>, x: nat, cs: seq<Nfts.Collection>, id: Text)
    requires ValidNet(net) && Inv(net, w) && AllOrderly(w) && x in w.chains && x in Run(net, w, run).chains
    requires Nfts.Exports(Run(net, w, run).chains[x].nft, cs)
    requires id in Run(net, w, run).chains[x].nft.denoms && VoucherId(id)
    ensures Nfts.Init(EMPTY, cs).Err?
  {
    RunOrderly(net, w, run, x);
    VoucherRefused(Run(net, w, run).chains[x].nft, cs, id);
  }

  lemma ValidIsExact(s: Store, cs: seq<Nfts.Collection>)
    requires Orderly(s) && Nfts.Exports(s, cs) && Nfts.ValidGenesis(cs)
    requires forall k :: k in s.nfts ==> k.denom in s.denoms
    ensures Nfts.ScansExact(s)
  {
    forall k | k in s.nfts
      ensures !VoucherId(k.denom)
    {
      if VoucherId(k.denom) {
        VoucherRefused(s, cs, k.denom);
      }
    }
  }

  /** Every class has a name that would do as an id. */
  ghost predicate NamesValid(s: Store) {
    forall id :: id in s.denoms ==> ValidId(s.denoms[id].name)
  }

  lemma ListedToken(s: Store, id: Text, ts: seq<Nfts.Token>, i: nat) returns (k: Key)
    requires Nfts.Lists(s, id, ts) && i < |ts|
    ensures k in s.nfts && ts[i] == Nfts.Token(k.token, s.nfts[k])
  {
    var keys :| Nfts.Scan(s, id, keys) && ts == Nfts.TokensAt(s, keys);
    k := keys[i];
  }

  lemma NativeTokenValid(s: Store, k: Key)
    requires Orderly(s) && NamesValid(s) && k in s.nfts && k.denom in s.denoms
    ensures Nfts.ValidToken(Nfts.Token(k.token, s.nfts[k]))
  {
    assert s.denoms[k.denom].id == k.denom && NewClass(s.denoms[k.denom]);
  }

  /** In an orderly store the genesis check comes down to the names of the classes. */
  lemma ValidByNames(s: Store, cs: seq<Nfts.Collection>)
    requires Orderly(s) && Nfts.Exports(s, cs) && forall k :: k in s.nfts ==> k.denom in s.denoms
    ensures Nfts.ValidGenesis(cs) <==> NamesValid(s)
  {
    if NamesValid(s) {
      forall i, j | 0 <= i < |cs| && 0 <= j < |cs[i].tokens|
        ensures Nfts.ValidToken(cs[i].tokens[j])
      {
        var k := ListedToken(s, cs[i].denom.id, cs[i].tokens, j);
        NativeTokenValid(s, k);
      }
    }
    if Nfts.ValidGenesis(cs) {
      forall id | id in s.denoms
        ensures ValidId(s.denoms[id].name)
      {
        var i :| 0 <= i < |cs| && cs[i].denom.id == id;
        assert Nfts.ValidCollection(cs[i]);
      }
    }
  }

  /** After every run, exporting a chain and importing it into an empty store restores it exactly when every class has a
      name that is a valid id, and that is when the genesis check accepts the export. */
  lemma ReachableExport(net: Net, w: World, run: seq<Action>, x: nat, cs: seq<Nfts.Collection>)
    requires ValidNet(net) && Inv(net, w) && AllOrderly(w) && Restore.AllConsistent(w)
    requires x in w.chains && x in Run(net, w, run).chains && Nfts.Exports(Run(net, w, run).chains[x].nft, cs)
    ensures
      Nfts.Init(EMPTY, cs).Ok? && SameContents(Run(net, w, run).chains[x].nft, Nfts.Init(EMPTY, cs).value)
      <==> NamesValid(Run(net, w, run).chains[x].nft)
    ensures Nfts.ValidGenesis(cs) <==> NamesValid(Run(net, w, run).chains[x].nft)
  {
    var s := Run(net, w, run).chains[x].nft;
    RunOrderly(net, w, run, x);
    Restore.RunKeepsConsistent(net, w, run);
    assert Consistent(s);
    Nfts.ExportThenInit(s, cs);
    ValidByNames(s, cs);
    if Nfts.ValidGenesis(cs) {
      ValidIsExact(s, cs);
    }
  }

  // ---- the traces ---------------------------------------------------------------------------------------

  /** The bytes under which the traces of a chain are stored. */
  function Encoded(traces: map<Text, ClassTrace>): map<Text, Text> {
    map h | h in traces :: EncodeTrace(traces[h])
  }

  ghost predicate SmallStore(traces: map<Text, ClassTrace>) {
    forall h :: h in traces ==> TraceSize(traces[h]) < TWO63
  }

  lemma EncodedAddressed(net: Net, c: Chain)
    requires ContentAddressed(net, c) && SmallStore(c.traces)
    ensures Traces.Readable(Encoded(c.traces)) && Traces.Addressed(net.sha, Encoded(c.traces))
    ensures Traces.View(Encoded(c.traces)) == c.traces
  {
    forall h | h in c.traces
      ensures |EncodeTrace(c.traces[h])| < TWO63 && DecodeTrace(EncodeTrace(c.traces[h])) == Some(c.traces[h])
    {
      Traces.DecodeEncoded(c.traces[h], EncodeTrace(c.traces[h]));
    }
  }

  /** After every run, exporting a chain's traces and importing them restores the port and the stored bytes. */
  lemma TracesRestored(net: Net, w: World, run: seq<Action>, x: nat, port: Text, g: GenesisState)
    requires ValidNet(net) && Inv(net, w) && x in Run(net, w, run).chains
    requires SmallStore(Run(net, w, run).chains[x].traces)
    requires Traces.Readable(Encoded(Run(net, w, run).chains[x].traces))
    requires Traces.Exports(Traces.Entries(port, Encoded(Run(net, w, run).chains[x].traces)), g)
    ensures Traces.Init(net.sha, g, Traces.EMPTY) == Traces.Entries(port, Encoded(Run(net, w, run).chains[x].traces))
  {
    RunKeepsInv(net, w, run);
    EncodedAddressed(net, Run(net, w, run).chains[x]);
    Traces.ExportThenInit(net.sha, Traces.Entries(port, Encoded(Run(net, w, run).chains[x].traces)), g);
  }

  // ---- the traces of a run are valid -----------------------------------------------------------------------

  /** The host accepts the identifiers of every channel end. */
  ghost predicate Accepts(rules: Traces.Rules, net: Net) {
    forall e :: e in net.peer ==> rules.port(e.port) && rules.channel(e.channel)
  }

  lemma PrefixedValid(rules: Traces.Rules, port: Text, channel: Text, path: Text)
    requires SlashFree(port) && SlashFree(channel) && rules.port(port) && rules.channel(channel)
    requires Traces.ValidPath(rules, path)
    ensures Traces.ValidPath(rules, ClassPrefix(port, channel) + path) && |Split(ClassPrefix(port, channel) + path)| >= 3
  {
    PrefixParts(port, channel, path);
    var parts, rest := Split(ClassPrefix(port, channel) + path), Split(path);
    assert parts == [port, channel] + rest;
    forall i | 0 <= i < |parts| - 1
      ensures if i % 2 == 0 then rules.port(parts[i]) else rules.channel(parts[i])
    {
      if i >= 2 {
        assert parts[i] == rest[i - 2] && (i - 2) % 2 == i % 2;
      }
    }
  }

  lemma IdentifiersValid(rules: Traces.Rules, parts: seq<Text>, ids: seq<Text>, base: Text)
    requires parts == ids + [base] && |parts| % 2 == 1 && |parts| >= 3
    requires forall i :: 0 <= i < |parts| - 1 ==> if i % 2 == 0 then rules.port(parts[i]) else rules.channel(parts[i])
    ensures Traces.ValidIdentifiers(rules, ids) && parts[|parts| - 1] == base
  {
    assert forall i :: 0 <= i < |ids| ==> parts[i] == ids[i];
  }

  lemma ParsedValid(rules: Traces.Rules, path: Text)
    requires Traces.ValidPath(rules, path) && |Split(path)| >= 3
    ensures Traces.ValidTrace(rules, ParseClassTrace(path))
  {
    assert !SlashFree(path) by {
      if SlashFree(path) {
        SplitSlashFree(path);
      }
    }
    var a, b := LastSlash(path);
    assert Split(path) == Split(a) + [b] by {
      SplitAtSlash(a, b);
      SplitSlashFree(b);
    }
    ParseCutsAtLastSlash(a, b);
    IdentifiersValid(rules, Split(path), Split(a), b);
  }

  /** The traces that receiving stores. */
  ghost predicate TraceFine(rules: Traces.Rules, t: ClassTrace) {
    Traces.ValidTrace(rules, t) && Traces.ValidPath(rules, FullClassPath(t))
  }

  ghost predicate TracesFine(rules: Traces.Rules, w: World) {
    forall x, h :: x in w.chains && h in w.chains[x].traces ==> TraceFine(rules, w.chains[x].traces[h])
  }

  lemma NewTraceFine(net: Net, rules: Traces.Rules, e: End, path: Text)
    requires ValidNet(net) && Accepts(rules, net) && e in net.peer && Traces.ValidPath(rules, path)
    ensures TraceFine(rules, ParseClassTrace(Prefix(e) + path))
  {
    PrefixedValid(rules, e.port, e.channel, path);
    ParsedValid(rules, Prefix(e) + path);
    PrefixedClassId(net.sha, e.port, e.channel, path);
  }

  lemma NativePathValid(rules: Traces.Rules, path: Text)
    requires SlashFree(path) && !Blank(path)
    ensures Traces.ValidPath(rules, path)
  {
    SplitSlashFree(path);
  }

  /** The path that a packet carries is that of a native class or of a stored trace. */
  lemma PacketPathValid(net: Net, rules: Traces.Rules, w: World, p: Packet)
    requires ValidNet(net) && TracesFine(rules, w) && PacketOk(net, w, p) && !Blank(p.data.classId)
    ensures Traces.ValidPath(rules, p.data.classId)
  {
    var path, traces := p.data.classId, w.chains[p.source.chain].traces;
    if SlashFree(path) {
      NativePathValid(rules, path);
    } else {
      var _, _ := VoucherPath(net, p.source.chain, path);
      ResolvedIsStored(net, w.chains[p.source.chain], path);
      assert TraceFine(rules, traces[net.sha(path)]);
    }
  }

  lemma ReceivedTraces(net: Net, w: World, p: Packet)
    requires p.source in net.peer && net.peer[p.source].chain in w.chains && Received(net, w, p).Ok?
    ensures !Blank(p.data.classId)
    ensures var dst := net.peer[p.source];
            var before, after := w.chains[dst.chain].traces, Received(net, w, p).value.traces;
            forall h :: h in after ==>
              (h in before && after[h] == before[h]) || after[h] == ParseClassTrace(Prefix(dst) + p.data.classId)
  {
  }

  lemma DeliveryKeepsFine(net: Net, rules: Traces.Rules, w: World, p: Packet)
    requires ValidNet(net) && Accepts(rules, net) && TracesFine(rules, w) && PacketOk(net, w, p)
    requires net.peer[p.source].chain in w.chains && Received(net, w, p).Ok?
    ensures forall h :: h in Received(net, w, p).value.traces ==>
              TraceFine(rules, Received(net, w, p).value.traces[h])
  {
    ReceivedTraces(net, w, p);
    PacketPathValid(net, rules, w, p);
    NewTraceFine(net, rules, net.peer[p.source], p.data.classId);
  }

  lemma OneChainFine(rules: Traces.Rules, w: World, w': World, x: nat, c: Chain)
    requires TracesFine(rules, w) && w'.chains == w.chains[x := c]
    requires forall h :: h in c.traces ==> TraceFine(rules, c.traces[h])
    ensures TracesFine(rules, w')
  {
  }

  lemma ReceiveKeepsFine(net: Net, rules: Traces.Rules, w: World, id: nat)
    requires ValidNet(net) && Accepts(rules, net) && Inv(net, w) && TracesFine(rules, w)
    ensures TracesFine(rules, NextReceive(net, w, id))
  {
    var w' := NextReceive(net, w, id);
    if w'.chains != w.chains {
      var p := w.packets[id];
      assert Live(w, id);
      DeliveryKeepsFine(net, rules, w, p);
      OneChainFine(rules, w, w', net.peer[p.source].chain, Received(net, w, p).value);
    }
  }

  /** Only a receive touches the traces. */
  lemma TracesStay(net: Net, w: World, a: Action, x: nat)
    requires !a.Receive? && x in Next(net, w, a).chains
    ensures x in w.chains && Next(net, w, a).chains[x].traces == w.chains[x].traces
  {
  }

  lemma NextKeepsFine(net: Net, rules: Traces.Rules, w: World, a: Action)
    requires ValidNet(net) && Accepts(rules, net) && Inv(net, w) && TracesFine(rules, w)
    ensures TracesFine(rules, Next(net, w, a))
  {
    if a.Receive? {
      ReceiveKeepsFine(net, rules, w, a.id);
    } else {
      forall x | x in Next(net, w, a).chains
        ensures x in w.chains && Next(net, w, a).chains[x].traces == w.chains[x].traces
      {
        TracesStay(net, w, a, x);
      }
    }
  }

  lemma {:induction false} RunKeepsFine(net: Net, rules: Traces.Rules, w: World, run: seq<Action>)
    requires ValidNet(net) && Accepts(rules, net) && Inv(net, w) && TracesFine(rules, w)
    ensures TracesFine(rules, Run(net, w, run))
    decreases |run|
  {
    if run != [] {
      NextKeepsInv(net, w, run[0]);
      NextKeepsFine(net, rules, w, run[0]);
      RunKeepsFine(net, rules, Next(net, w, run[0]), run[1..]);
    }
  }

  /** After every run from an initial state, the exported traces pass the module's genesis check, if the host accepts the
      identifiers of the channel ends. */
  lemma TracesValid(net: Net, rules: Traces.Rules, w: World, run: seq<Action>, x: nat, port: Text, g: GenesisState)
    requires ValidNet(net) && Accepts(rules, net) && Initial(net, w) && x in Run(net, w, run).chains
    requires SmallStore(Run(net, w, run).chains[x].traces)
    requires Traces.Readable(Encoded(Run(net, w, run).chains[x].traces))
    requires Traces.Exports(Traces.Entries(port, Encoded(Run(net, w, run).chains[x].traces)), g)
    ensures Traces.ValidTraces(rules, net.sha, g.traces)
  {
    InitialInv(net, w);
    RunKeepsInv(net, w, run);
    RunKeepsFine(net, rules, w, run);
    var c := Run(net, w, run).chains[x];
    EncodedAddressed(net, c);
    ListingFine(net, rules, c, g.traces);
  }

  lemma ListingFine(net: Net, rules: Traces.Rules, c: Chain, ts: seq<ClassTrace>)
    requires forall h :: h in c.traces ==> TraceFine(rules, c.traces[h])
    requires Traces.Readable(Encoded(c.traces)) && Traces.Addressed(net.sha, Encoded(c.traces))
    requires Traces.View(Encoded(c.traces)) == c.traces && Traces.Lists(Encoded(c.traces), ts)
    ensures Traces.ValidTraces(rules, net.sha, ts)
  {
    Traces.DistinctListing(net.sha, Encoded(c.traces), ts);
    forall i | 0 <= i < |ts|
      ensures Traces.ValidTrace(rules, ts[i])
    {
      Traces.ListsHolds(Encoded(c.traces), ts, ts[i]);
      var h :| h in Encoded(c.traces) && DecodeTrace(Encoded(c.traces)[h]) == Some(ts[i]);
      assert Traces.View(Encoded(c.traces))[h] == ts[i];
    }
  }
}
