/** Sender, receiver and refund take the same direction, and the receiver's class is the one that a hop leads to. */
module Direction {
  import opened Bytes
  import opened ClassTraces
  import opened NftStore
  import opened TransferSpec
  import opened Network
  import opened NetworkPackets
  import opened NetworkHandlers
  import opened NetworkTheorems

  /** The hop that a packet makes. */
  function HopOfPacket(net: Net, p: Packet): Hop
    requires p.source in net.peer
  {
    var dst := net.peer[p.source];
    Hop(p.source.port, p.source.channel, dst.port, dst.channel)
  }

  /** The class in which the receiving chain holds the packet's tokens. */
  function ClassAfter(net: Net, p: Packet): Text
    requires p.source in net.peer
  {
    ClassId(net.sha, PathAfter(p.data.classId, HopOfPacket(net, p)))
  }

  /** Exactly the listed tokens of the class go from one account to another. */
  ghost predicate Hands(s: Store, s': Store, id: Text, ids: seq<Text>, src: Address, dst: Address) {
    Moved(s, s', id, ids, dst) && AllOwned(s, id, ids, src)
  }

  /** Exactly the listed tokens of the class appear, in a class that may be new. */
  ghost predicate Creates(s: Store, s': Store, id: Text, ids: seq<Text>, uris: seq<Text>, owner: Address) {
    exists s1: Store :: s1.nfts == s.nfts && Added(s1, s', id, ids, uris, owner)
  }

  lemma AfterIsSlot(net: Net, p: Packet)
    requires ValidNet(net) && p.source in net.peer
    ensures PathAfter(p.data.classId, HopOfPacket(net, p)) == if Away(p) then SlotPath(net, p) else SlotRest(p)
  {
    SlotHop(net, p);
  }

  /** A send hands its tokens to the escrow account when the packet is outward, and removes them when it is not. */
  ghost predicate SendsAs(net: Net, s: Store, s': Store, p: Packet, sender: Address) {
    var id, ids := ClassId(net.sha, p.data.classId), p.data.tokenIds;
    if Away(p) then Hands(s, s', id, ids, sender, Escrow(net, p.source))
    else Removed(s, s', id, ids) && AllOwned(s, id, ids, sender)
  }

  /** The receiver creates tokens of the class after the hop when the packet is outward, and hands out escrowed ones
      when it is not. */
  ghost predicate ReceivesAs(net: Net, s: Store, s': Store, p: Packet, to: Address)
    requires p.source in net.peer
  {
    if Away(p) then Creates(s, s', ClassAfter(net, p), p.data.tokenIds, p.data.tokenUris, to)
    else Hands(s, s', ClassAfter(net, p), p.data.tokenIds, Escrow(net, net.peer[p.source]), to)
  }

  /** A refund hands escrowed tokens back when the packet is outward, and creates burned ones again when it is not. */
  ghost predicate RefundsAs(net: Net, s: Store, s': Store, p: Packet, to: Address) {
    var id := ClassId(net.sha, p.data.classId);
    if Away(p) then Hands(s, s', id, p.data.tokenIds, Escrow(net, p.source), to)
    else Creates(s, s', id, p.data.tokenIds, p.data.tokenUris, to)
  }

  lemma OutwardReceive(net: Net, w: World, p: Packet) returns (to: Address)
    requires ValidNet(net) && p.source in net.peer && net.peer[p.source].chain in w.chains && Received(net, w, p).Ok?
    requires Away(p)
    ensures ReceivesAs(net, w.chains[net.peer[p.source].chain].nft, Received(net, w, p).value.nft, p, to)
  {
    var s;
    s, to := OutwardAdds(net, w, p);
    AfterIsSlot(net, p);
  }

  lemma HomewardReceive(net: Net, w: World, p: Packet, to: Address)
    requires ValidNet(net) && PacketOk(net, w, p) && net.peer[p.source].chain in w.chains && Received(net, w, p).Ok?
    requires !Away(p) && net.read(net.peer[p.source].chain)(p.data.receiver) == Some(to)
    ensures ReceivesAs(net, w.chains[net.peer[p.source].chain].nft, Received(net, w, p).value.nft, p, to)
  {
    var dst := net.peer[p.source];
    AfterIsSlot(net, p);
    TransferAllMoves(w.chains[dst.chain].nft, ClassAfter(net, p), p.data.tokenIds, Escrow(net, dst), to);
    HeldTokens(net, w, p);
  }

  lemma ReceiveDirection(net: Net, w: World, p: Packet) returns (to: Address)
    requires ValidNet(net) && PacketOk(net, w, p) && net.peer[p.source].chain in w.chains && Received(net, w, p).Ok?
    ensures ReceivesAs(net, w.chains[net.peer[p.source].chain].nft, Received(net, w, p).value.nft, p, to)
  {
    if Away(p) {
      to := OutwardReceive(net, w, p);
    } else {
      to := net.read(net.peer[p.source].chain)(p.data.receiver).value;
      HomewardReceive(net, w, p, to);
    }
  }

  lemma RefundDirection(net: Net, w: World, p: Packet) returns (to: Address)
    requires ValidNet(net) && PacketOk(net, w, p) && Refunded(net, w, p).Ok?
    ensures RefundsAs(net, w.chains[p.source.chain].nft, Refunded(net, w, p).value.nft, p, to)
  {
    SlotHop(net, p);
    to := net.read(p.source.chain)(p.data.sender).value;
    var s, id := w.chains[p.source.chain].nft, ClassId(net.sha, p.data.classId);
    if Away(p) {
      TransferAllMoves(s, id, p.data.tokenIds, Escrow(net, p.source), to);
      HeldTokens(net, w, p);
    } else {
      MintAllAdds(s, id, p.data.tokenIds, p.data.tokenUris, Escrow(net, p.source), to);
      assert s.nfts == s.nfts;
    }
  }

  lemma SendDirection(net: Net, w: World, a: Action) returns (s': Store, p: Packet)
    requires ValidNet(net) && Inv(net, w) && a.Send? && NextSend(net, w, a) != w
    ensures p.source == a.src && a.src in net.peer && a.src.chain in w.chains && p.data.tokenIds == a.ids
    ensures a.denom == ClassId(net.sha, p.data.classId) && SendsAs(net, w.chains[a.src.chain].nft, s', p, a.sender)
    ensures NextSend(net, w, a) == WithPacket(WithChain(w, a.src.chain, w.chains[a.src.chain].(nft := s')), p)
  {
    s', p := SendShape(net, w, a);
  }

  /** However a packet is resolved, and after whatever steps, its receive and its refund take the direction that its send
      took; and the class at the receiver is the one the hop leads to. */
  lemma HandlersAgree(net: Net, w: World, p: Packet)
    requires ValidNet(net) && Inv(net, w) && PacketOk(net, w, p)
    ensures net.peer[p.source].chain in w.chains && Received(net, w, p).Ok? ==>
      exists to :: ReceivesAs(net, w.chains[net.peer[p.source].chain].nft, Received(net, w, p).value.nft, p, to)
    ensures Refunded(net, w, p).Ok?
    ensures exists to :: RefundsAs(net, w.chains[p.source.chain].nft, Refunded(net, w, p).value.nft, p, to)
  {
    if net.peer[p.source].chain in w.chains && Received(net, w, p).Ok? {
      var _ := ReceiveDirection(net, w, p);
    }
    RefundSucceeds(net, w, p);
    var _ := RefundDirection(net, w, p);
  }
}
