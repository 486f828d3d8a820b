/** When the packet handlers succeed, and what they then do, in a world that keeps the invariant. */
module NetworkHandlers {
  import opened Bytes
  import opened ClassTraces
  import opened NftStore
  import opened TransferSpec
  import opened Network
  import opened NetworkSteps
  import opened NetworkPackets
  import opened NetworkDelivery

  /** The receiving chain's answer to a packet. */
  function Received(net: Net, w: World, p: Packet): Result<Chain, Error>
    requires p.source in net.peer && net.peer[p.source].chain in w.chains
  {
    var dst := net.peer[p.source];
    OnRecv(net.sha, net.read(dst.chain), w.chains[dst.chain],
           p.source.port, p.source.channel, dst.port, dst.channel, p.data)
  }

  /** The sending chain's refund of a packet. */
  function Refunded(net: Net, w: World, p: Packet): Result<Chain, Error>
    requires p.source.chain in w.chains
  {
    Refund(net.sha, net.read(p.source.chain), w.chains[p.source.chain], p.source.port, p.source.channel, p.data)
  }

  // ---- minting ------------------------------------------------------------------------------------------

  lemma AddTraceStores(net: Net, c: Chain, path: Text)
    requires ValidNet(net) && ContentAddressed(net, c) && path in net.paths
    requires FullClassPath(ParseClassTrace(path)) == path
    ensures var traces := AddTrace(net.sha, c.traces, ParseClassTrace(path));
            && ContentAddressed(net, c.(traces := traces))
            && (forall h :: h in c.traces ==> h in traces && traces[h] == c.traces[h])
            && net.sha(path) in traces && FullClassPath(traces[net.sha(path)]) == path
  {
  }

  function Issued(net: Net, p: Packet, s: Store): Result<Store, Error> {
    WithClass(s, ClassId(net.sha, SlotPath(net, p)), p.data.classUri, Escrow(net, SlotEnd(net, p)))
  }

  lemma AddedIsMinted(net: Net, p: Packet, c: Chain, s: Store, c': Chain, owner: Address)
    requires Issued(net, p, c.nft) == Ok(s)
    requires ClassId(net.sha, SlotPath(net, p)) in c.nft.denoms ==>
               c.nft.denoms[ClassId(net.sha, SlotPath(net, p))].creator == Escrow(net, SlotEnd(net, p))
    requires ContentAddressed(net, c')
    requires forall h :: h in c.traces ==> h in c'.traces && c'.traces[h] == c.traces[h]
    requires net.sha(SlotPath(net, p)) in c'.traces
    requires FullClassPath(c'.traces[net.sha(SlotPath(net, p))]) == SlotPath(net, p)
    requires Added(s, c'.nft, ClassId(net.sha, SlotPath(net, p)), p.data.tokenIds, p.data.tokenUris, owner)
    ensures Minted(net, p, c, c')
  {
    var id := ClassId(net.sha, SlotPath(net, p));
    forall k | k in c'.nft.nfts && k !in c.nft.nfts
      ensures c'.nft.nfts[k].name == [] && c'.nft.nfts[k].data == []
    {
      var i :| 0 <= i < |p.data.tokenIds| && p.data.tokenIds[i] == k.token;
      assert k == Key(id, p.data.tokenIds[i]);
    }
  }

  /** In every good world the creator of a voucher class is the escrow account of its last hop. */
  lemma VoucherCreator(net: Net, x: nat, c: Chain, path: Text)
    requires ValidNet(net) && ChainOk(net, x, c) && PathOk(net, x, path) && HopOf(net, x, path).Some?
    requires ClassId(net.sha, path) in c.nft.denoms
    ensures ResolvePath(c.traces, ClassId(net.sha, path)) == Ok(path)
    ensures c.nft.denoms[ClassId(net.sha, path)].creator == Escrow(net, HopOf(net, x, path).value)
  {
    var id := ClassId(net.sha, path);
    assert DenomOk(net, x, c, id);
    ClassIdInjective(net, x, ResolvePath(c.traces, id).value, x, path);
  }

  /** A voucher class that resolves has its trace stored under the hash of its path. */
  lemma ResolvedIsStored(net: Net, c: Chain, path: Text)
    requires ResolvePath(c.traces, ClassId(net.sha, path)) == Ok(path)
    requires ClassId(net.sha, path) == IBC_PREFIX + HexEncode(net.sha(path))
    ensures net.sha(path) in c.traces && FullClassPath(c.traces[net.sha(path)]) == path
  {
    var id := ClassId(net.sha, path);
    HexRoundTrip(net.sha(path));
    assert id[|IBC_PREFIX|..] == HexEncode(net.sha(path));
    assert HasPrefix(id, IBC_PREFIX);
  }

  /** What the receive of an outward packet adds. */
  lemma OutwardAdds(net: Net, w: World, p: Packet) returns (s: Store, to: Address)
    requires p.source in net.peer && net.peer[p.source].chain in w.chains && Away(p) && Received(net, w, p).Ok?
    ensures net.read(SlotEnd(net, p).chain)(p.data.receiver) == Some(to)
    ensures Issued(net, p, w.chains[SlotEnd(net, p).chain].nft) == Ok(s)
    ensures s.nfts == w.chains[SlotEnd(net, p).chain].nft.nfts
    ensures
      var c' := Received(net, w, p).value;
      && Added(s, c'.nft, ClassId(net.sha, SlotPath(net, p)), p.data.tokenIds, p.data.tokenUris, to)
      && c'.traces == AddTrace(net.sha, w.chains[SlotEnd(net, p).chain].traces, ParseClassTrace(SlotPath(net, p)))
  {
    var dst := net.peer[p.source];
    to := net.read(dst.chain)(p.data.receiver).value;
    s := VouchersAdded(net.sha, w.chains[dst.chain], SlotPath(net, p), p.data, Escrow(net, dst), to);
  }

  lemma ReceiveMints(net: Net, w: World, p: Packet)
    requires ValidNet(net) && ChainsInv(net, w) && PacketOk(net, w, p) && Away(p) && Received(net, w, p).Ok?
    ensures Minted(net, p, w.chains[SlotEnd(net, p).chain], Received(net, w, p).value)
  {
    var e := SlotEnd(net, p);
    var c, path := w.chains[e.chain], SlotPath(net, p);
    var s, to := OutwardAdds(net, w, p);
    SlotHop(net, p);
    SlotPathOk(net, p);
    PrefixedClassId(net.sha, e.port, e.channel, SlotRest(p));
    AddTraceStores(net, c, path);
    if ClassId(net.sha, path) in c.nft.denoms {
      VoucherCreator(net, e.chain, c, path);
    }
    AddedIsMinted(net, p, c, s, Received(net, w, p).value, to);
  }

  lemma RefundMints(net: Net, w: World, p: Packet)
    requires ValidNet(net) && ChainsInv(net, w) && PacketOk(net, w, p) && !Away(p) && Refunded(net, w, p).Ok?
    ensures Minted(net, p, w.chains[SlotEnd(net, p).chain], Refunded(net, w, p).value)
  {
    var e := p.source;
    var c := w.chains[e.chain];
    var c' := Refunded(net, w, p).value;
    var path := p.data.classId;
    var id := ClassId(net.sha, path);
    SlotHop(net, p);
    PrefixedClassId(net.sha, e.port, e.channel, SlotRest(p));
    VoucherCreator(net, e.chain, c, path);
    ResolvedIsStored(net, c, path);
    var owner := net.read(e.chain)(p.data.sender).value;
    MintAllAdds(c.nft, id, p.data.tokenIds, p.data.tokenUris, Escrow(net, e), owner);
    AddedIsMinted(net, p, c, c.nft, c', owner);
  }

  // ---- releasing ------------------------------------------------------------------------------------------

  lemma ReceiveReleases(net: Net, w: World, p: Packet) returns (to: Address)
    requires ValidNet(net) && PacketOk(net, w, p) && !Away(p)
    requires net.peer[p.source].chain in w.chains && Received(net, w, p).Ok?
    ensures OtherEnd(net, p) == net.peer[p.source]
    ensures Released(net, p, w.chains[OtherEnd(net, p).chain], Received(net, w, p).value, to)
    ensures net.read(net.peer[p.source].chain)(p.data.receiver) == Some(to)
  {
    var dst := net.peer[p.source];
    to := net.read(dst.chain)(p.data.receiver).value;
    TransferAllMoves(w.chains[dst.chain].nft, ClassId(net.sha, SlotRest(p)), p.data.tokenIds, Escrow(net, dst), to);
  }

  lemma RefundReleases(net: Net, w: World, p: Packet) returns (to: Address)
    requires ValidNet(net) && PacketOk(net, w, p) && Away(p) && Refunded(net, w, p).Ok?
    ensures OtherEnd(net, p) == p.source
    ensures Released(net, p, w.chains[p.source.chain], Refunded(net, w, p).value, to)
    ensures net.read(p.source.chain)(p.data.sender) == Some(to)
  {
    SlotHop(net, p);
    to := net.read(p.source.chain)(p.data.sender).value;
    TransferAllMoves(w.chains[p.source.chain].nft, ClassId(net.sha, p.data.classId), p.data.tokenIds,
                     Escrow(net, p.source), to);
  }

  // ---- success ----------------------------------------------------------------------------------------------

  lemma HeldTokens(net: Net, w: World, p: Packet)
    requires ValidNet(net) && PacketOk(net, w, p) && OtherEnd(net, p).chain in w.chains
    ensures AllOwned(w.chains[OtherEnd(net, p).chain].nft, ClassId(net.sha, SlotRest(p)), p.data.tokenIds,
                     Escrow(net, OtherEnd(net, p)))
    ensures NonePresent(w.chains[SlotEnd(net, p).chain].nft, ClassId(net.sha, SlotPath(net, p)), p.data.tokenIds)
  {
    forall t | t in p.data.tokenIds ensures SlotHeld(net, w, p, t) {
    }
  }

  lemma EscrowedClassExists(net: Net, x: nat, c: Chain, id: Text, ids: seq<Text>, a: Address)
    requires ChainOk(net, x, c) && ids != [] && AllOwned(c.nft, id, ids, a)
    ensures id in c.nft.denoms
  {
    assert Key(id, ids[0]) in c.nft.nfts;
  }

  /** A refund never fails. */
  lemma RefundSucceeds(net: Net, w: World, p: Packet)
    requires ValidNet(net) && ChainsInv(net, w) && PacketOk(net, w, p)
    ensures Refunded(net, w, p).Ok?
  {
    var x := p.source.chain;
    var a :| ValidAddress(a) && p.data.sender == net.show(x)(a);
    assert net.read(x)(net.show(x)(a)) == Some(a);
    if p.data.tokenIds != [] {
      SlotHop(net, p);
      HeldTokens(net, w, p);
      if Away(p) {
        RefundEscrowed(net.sha, net.read(x), w.chains[x], p.source.port, p.source.channel, p.data);
      } else {
        VoucherCreator(net, x, w.chains[x], p.data.classId);
        RefundBurned(net.sha, net.read(x), w.chains[x], p.source.port, p.source.channel, p.data);
      }
    }
  }

  /** A homeward packet is delivered exactly when it passes the basic checks: the escrow holds its tokens. */
  lemma HomewardReceiveSucceeds(net: Net, w: World, p: Packet)
    requires ValidNet(net) && ChainsInv(net, w) && PacketOk(net, w, p) && !Away(p)
    ensures var dst := net.peer[p.source];
            Received(net, w, p).Ok? <==> ValidateBasic(net.read(dst.chain), p.data).None?
  {
    var dst := net.peer[p.source];
    var c := w.chains[dst.chain];
    HeldTokens(net, w, p);
    if p.data.tokenIds != [] {
      EscrowedClassExists(net, dst.chain, c, ClassId(net.sha, SlotRest(p)), p.data.tokenIds, Escrow(net, dst));
    }
    ReceiveHomeward(net.sha, net.read(dst.chain), c, p.source.port, p.source.channel, dst.port, dst.channel, p.data);
  }

  lemma SlotClassCreator(net: Net, w: World, p: Packet)
    requires ValidNet(net) && ChainsInv(net, w) && PacketOk(net, w, p)
    ensures var id := ClassId(net.sha, SlotPath(net, p));
            var s := w.chains[SlotEnd(net, p).chain].nft;
            id in s.denoms ==> s.denoms[id].creator == Escrow(net, SlotEnd(net, p))
  {
    var e := SlotEnd(net, p);
    SlotHop(net, p);
    SlotPathOk(net, p);
    if ClassId(net.sha, SlotPath(net, p)) in w.chains[e.chain].nft.denoms {
      VoucherCreator(net, e.chain, w.chains[e.chain], SlotPath(net, p));
    }
  }

  /** An outward packet is delivered exactly when it passes the basic checks and its class id is
      known or not taken as the name of another class. */
  lemma OutwardReceiveSucceeds(net: Net, w: World, p: Packet)
    requires ValidNet(net) && ChainsInv(net, w) && PacketOk(net, w, p) && Away(p)
    ensures var dst := net.peer[p.source];
            var s := w.chains[dst.chain].nft;
            var id := ClassId(net.sha, SlotPath(net, p));
            Received(net, w, p).Ok? <==>
              && ValidateBasic(net.read(dst.chain), p.data).None?
              && (id in s.denoms || id !in s.names)
  {
    var dst := net.peer[p.source];
    HeldTokens(net, w, p);
    SlotClassCreator(net, w, p);
    ReceiveOutward(net.sha, net.read(dst.chain), w.chains[dst.chain],
                   p.source.port, p.source.channel, dst.port, dst.channel, p.data);
  }
}
