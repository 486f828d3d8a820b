/** Transfers that go through, end to end: vouchers reach the receiver, and whoever holds vouchers can bring the
    original tokens home. */
module Delivery {
  import opened Bytes
  import opened ClassTraces
  import opened NftStore
  import opened TransferSpec
  import opened Network
  import opened NetworkPackets
  import opened NetworkDelivery
  import opened NetworkHandlers
  import opened NetworkTheorems
  import Restore

  /** The addresses of a packet, as the receiving chain checks them. */
  predicate Readable(read: Text -> Option<Address>, sender: Text, receiver: Text) {
    !Blank(sender) && read(sender).Some? && !Blank(receiver) && read(receiver).Some?
  }

  lemma PathNotBlank(e: End, rest: Text)
    ensures !Blank(Prefix(e) + rest)
  {
    var path := Prefix(e) + rest;
    assert path[|e.port|] == SLASH && SLASH in path;
  }

  /** w1 is w after the sender's packet p was created, which left the sending chain's store as s'. */
  ghost predicate Sent(net: Net, w: World, w1: World, s': Store, p: Packet, sender: Address) {
    && p.source in net.peer && p.source.chain in w.chains && p.status.InFlight?
    && Live(w1, w.sent) && w1.packets[w.sent] == p && w1.sent == w.sent + 1
    && SentFrom(net, p.source.chain, w.chains[p.source.chain], s', p, sender)
    && w1.chains == w.chains[p.source.chain := w.chains[p.source.chain].(nft := s')]
  }

  lemma ShapeIsSent(net: Net, w: World, w1: World, s': Store, p: Packet, sender: Address)
    requires p.source in net.peer && p.source.chain in w.chains && p.status.InFlight?
    requires SentFrom(net, p.source.chain, w.chains[p.source.chain], s', p, sender)
    requires w1 == WithPacket(WithChain(w, p.source.chain, w.chains[p.source.chain].(nft := s')), p)
    ensures Sent(net, w, w1, s', p, sender)
    ensures ResolvePath(w.chains[p.source.chain].traces, ClassId(net.sha, p.data.classId)) == Ok(p.data.classId)
    ensures p.data.sender == net.show(p.source.chain)(sender)
  {
  }

  lemma SentWorld(net: Net, w: World, a: Action) returns (w1: World, s': Store, p: Packet)
    requires ValidNet(net) && Inv(net, w) && a.Send? && NextSend(net, w, a) != w
    ensures w1 == Next(net, w, a) && Inv(net, w1) && Sent(net, w, w1, s', p, a.sender)
    ensures p.source == a.src && p.data.tokenIds == a.ids && p.data.receiver == a.receiver
    ensures a.src in net.peer && a.src.chain in w.chains
    ensures a.denom == ClassId(net.sha, p.data.classId)
    ensures ResolvePath(w.chains[a.src.chain].traces, a.denom) == Ok(p.data.classId)
    ensures p.data.sender == net.show(a.src.chain)(a.sender)
    ensures PathOk(net, SlotEnd(net, p).chain, SlotPath(net, p)) && Distinct(a.ids)
  {
    s', p := SendShape(net, w, a);
    w1 := Next(net, w, a);
    SlotPathOk(net, p);
    ShapeIsSent(net, w, w1, s', p, a.sender);
    SendStep(net, w, a);
  }

  // ---- sending vouchers back ------------------------------------------------------------------------------

  /** Vouchers of the class with path Prefix(e) + rest, held by one account on the chain of e. */
  ghost predicate Holds(net: Net, w: World, e: End, rest: Text, ids: seq<Text>, holder: Address) {
    && e in net.peer && e.chain in w.chains && ids != [] && Distinct(ids)
    && PathOk(net, e.chain, Prefix(e) + rest)
    && AllOwned(w.chains[e.chain].nft, ClassId(net.sha, Prefix(e) + rest), ids, holder)
  }

  lemma HeldResolves(net: Net, w: World, e: End, rest: Text, ids: seq<Text>, holder: Address)
    requires ValidNet(net) && ChainsInv(net, w) && Holds(net, w, e, rest, ids, holder)
    ensures var id := ClassId(net.sha, Prefix(e) + rest);
            && id in w.chains[e.chain].nft.denoms
            && ResolvePath(w.chains[e.chain].traces, id) == Ok(Prefix(e) + rest)
    ensures Prefix(e) + rest in net.paths
  {
    var path := Prefix(e) + rest;
    HopUnique(net, e, path);
    assert ids[0] in ids;
    assert Key(ClassId(net.sha, path), ids[0]) in w.chains[e.chain].nft.nfts;
    VoucherCreator(net, e.chain, w.chains[e.chain], path);
    HopOfNativeContra(net, e.chain, path);
  }

  /** The packet that a send of the vouchers creates. */
  ghost predicate Returning(net: Net, p: Packet, e: End, rest: Text, ids: seq<Text>) {
    p.source == e && p.data.classId == Prefix(e) + rest && p.data.tokenIds == ids && p.status.InFlight?
  }

  lemma ReturningSlot(net: Net, p: Packet, e: End, rest: Text, ids: seq<Text>)
    requires Returning(net, p, e, rest, ids)
    ensures !Away(p) && SlotEnd(net, p) == e && SlotRest(p) == rest && SlotPath(net, p) == Prefix(e) + rest
  {
    assert (Prefix(e) + rest)[|Prefix(e)|..] == rest;
  }

  /** The send of held vouchers goes through. */
  lemma SendBack(net: Net, w: World, e: End, rest: Text, ids: seq<Text>, holder: Address, receiver: Text)
    returns (a: Action)
    requires ValidNet(net) && ChainsInv(net, w) && Holds(net, w, e, rest, ids, holder)
    requires e.port == PORT_ID && !IsEscrow(net, e.chain, holder) && ValidAddress(holder)
    ensures a == Send(e, ClassId(net.sha, Prefix(e) + rest), ids, holder, receiver)
    ensures NextSend(net, w, a) != w
    ensures ResolvePath(w.chains[e.chain].traces, a.denom) == Ok(Prefix(e) + rest)
  {
    var x, path := e.chain, Prefix(e) + rest;
    var id := ClassId(net.sha, path);
    a := Send(e, id, ids, holder, receiver);
    HeldResolves(net, w, e, rest, ids, holder);
    assert IsEscrow(net, x, Escrow(net, e));
    SendSucceeds(net.sha, w.chains[x], e.port, e.channel, id, ids, holder, net.show(x)(holder), receiver);
    var r := CreateOutgoing(net.sha, w.chains[x], e.port, e.channel, id, ids, holder, net.show(x)(holder), receiver);
    ReturningSlot(net, Packet(e, r.value.1, InFlight), e, rest, ids);
    assert NextSend(net, w, a).sent == w.sent + 1;
  }

  /** The class behind a voucher class is another class. */
  lemma BehindDiffers(net: Net, e: End, rest: Text)
    requires ValidNet(net) && e in net.peer && PathOk(net, e.chain, Prefix(e) + rest)
    ensures PathOk(net, net.peer[e].chain, rest)
    ensures ClassId(net.sha, rest) != ClassId(net.sha, Prefix(e) + rest)
  {
    var path := Prefix(e) + rest;
    HopUnique(net, e, path);
    HopOfNativeContra(net, e.chain, path);
    assert Rest(e, path) == rest;
    if ClassId(net.sha, rest) == ClassId(net.sha, path) {
      ClassIdInjective(net, net.peer[e].chain, rest, e.chain, path);
    }
  }

  /** On one chain: the vouchers leave, and the tokens behind them change owner. */
  ghost predicate Redeemed(net: Net, w: World, w2: World, e: End, rest: Text, t: Text, to: Address) {
    && e in net.peer && e.chain in w2.chains && net.peer[e].chain in w.chains && net.peer[e].chain in w2.chains
    && Key(ClassId(net.sha, Prefix(e) + rest), t) !in w2.chains[e.chain].nft.nfts
    && var k := Key(ClassId(net.sha, rest), t);
       && k in w.chains[net.peer[e].chain].nft.nfts && k in w2.chains[net.peer[e].chain].nft.nfts
       && w2.chains[net.peer[e].chain].nft.nfts[k] == w.chains[net.peer[e].chain].nft.nfts[k].(owner := to)
  }

  lemma RecordsReturn(net: Net, w: World, w1: World, w2: World, e: End, rest: Text, ids: seq<Text>,
                      s': Store, c': Chain, to: Address, t: Text)
    requires e in net.peer && e.chain in w.chains && net.peer[e].chain in w.chains && t in ids
    requires ClassId(net.sha, rest) != ClassId(net.sha, Prefix(e) + rest)
    requires Removed(w.chains[e.chain].nft, s', ClassId(net.sha, Prefix(e) + rest), ids)
    requires w1.chains == w.chains[e.chain := w.chains[e.chain].(nft := s')]
    requires Key(ClassId(net.sha, rest), t) in w1.chains[net.peer[e].chain].nft.nfts
    requires Moved(w1.chains[net.peer[e].chain].nft, c'.nft, ClassId(net.sha, rest), ids, to)
    requires w2.chains == w1.chains[net.peer[e].chain := c']
    ensures Redeemed(net, w, w2, e, rest, t, to)
  {
    var k := Key(ClassId(net.sha, rest), t);
    assert k in w.chains[net.peer[e].chain].nft.nfts;
    assert w1.chains[net.peer[e].chain].nft.nfts[k] == w.chains[net.peer[e].chain].nft.nfts[k];
  }

  lemma ReturnValid(net: Net, read: Text -> Option<Address>, p: Packet, e: End, rest: Text, ids: seq<Text>)
    requires Returning(net, p, e, rest, ids) && ids != [] && |p.data.tokenUris| == |ids|
    requires Readable(read, p.data.sender, p.data.receiver)
    ensures ValidateBasic(read, p.data).None?
  {
    PathNotBlank(e, rest);
  }

  lemma ReturnReachesHome(net: Net, w: World, p: Packet, e: End, rest: Text, ids: seq<Text>)
    requires PacketOk(net, w, p) && Returning(net, p, e, rest, ids) && ids != []
    ensures net.peer[e].chain in w.chains && |p.data.tokenUris| == |ids|
  {
    ReturningSlot(net, p, e, rest, ids);
    assert ids[0] in ids;
    assert SlotHeld(net, w, p, ids[0]);
  }

  lemma ReturnAccepted(net: Net, w: World, p: Packet, e: End, rest: Text, ids: seq<Text>)
    requires ValidNet(net) && ChainsInv(net, w) && PacketOk(net, w, p) && Returning(net, p, e, rest, ids) && ids != []
    requires Readable(net.read(net.peer[e].chain), p.data.sender, p.data.receiver)
    ensures net.peer[e].chain in w.chains && Received(net, w, p).Ok?
  {
    ReturnReachesHome(net, w, p, e, rest, ids);
    ReturnValid(net, net.read(net.peer[e].chain), p, e, rest, ids);
    ReturningSlot(net, p, e, rest, ids);
    HomewardReceiveSucceeds(net, w, p);
  }

  lemma ReceiveDelivers(net: Net, w: World, id: nat)
    requires id in w.packets && w.packets[id].status.InFlight? && w.packets[id].source in net.peer
    requires net.peer[w.packets[id].source].chain in w.chains && Received(net, w, w.packets[id]).Ok?
    ensures Next(net, w, Receive(id)) ==
      w.(chains := w.chains[net.peer[w.packets[id].source].chain := Received(net, w, w.packets[id]).value],
         packets := w.packets[id := w.packets[id].(status := SuccessAck)])
  {
  }

  /** The tokens behind a returning packet, and what its receive does to them. */
  lemma Releases(net: Net, w: World, p: Packet, e: End, rest: Text, ids: seq<Text>) returns (c': Chain, to: Address)
    requires ValidNet(net) && ChainsInv(net, w) && PacketOk(net, w, p) && Returning(net, p, e, rest, ids) && ids != []
    requires Readable(net.read(net.peer[e].chain), p.data.sender, p.data.receiver)
    ensures net.peer[e].chain in w.chains && Received(net, w, p) == Ok(c')
    ensures net.read(net.peer[e].chain)(p.data.receiver) == Some(to)
    ensures Moved(w.chains[net.peer[e].chain].nft, c'.nft, ClassId(net.sha, rest), ids, to)
    ensures forall t :: t in ids ==> Key(ClassId(net.sha, rest), t) in w.chains[net.peer[e].chain].nft.nfts
  {
    ReturnAccepted(net, w, p, e, rest, ids);
    ReturningSlot(net, p, e, rest, ids);
    to := ReceiveReleases(net, w, p);
    HeldTokens(net, w, p);
    c' := Received(net, w, p).value;
  }

  /** From the state in which the vouchers are under way to the one in which the tokens are home. */
  lemma ComesHome(net: Net, w: World, w1: World, s': Store, p: Packet, holder: Address, rest: Text)
    returns (w2: World, to: Address)
    requires ValidNet(net) && Inv(net, w1) && Sent(net, w, w1, s', p, holder) && p.data.tokenIds != []
    requires p.data.classId == Prefix(p.source) + rest && PathOk(net, p.source.chain, p.data.classId)
    requires Readable(net.read(net.peer[p.source].chain), p.data.sender, p.data.receiver)
    ensures w2 == Next(net, w1, Receive(w.sent)) && Inv(net, w2)
    ensures net.read(net.peer[p.source].chain)(p.data.receiver) == Some(to)
    ensures w.sent in w2.packets && w2.packets[w.sent].status.SuccessAck?
    ensures forall t :: t in p.data.tokenIds ==> Redeemed(net, w, w2, p.source, rest, t, to)
  {
    var e, ids, c' := p.source, p.data.tokenIds, w1.chains[p.source.chain];
    c', to := Releases(net, w1, p, e, rest, ids);
    ReturningSlot(net, p, e, rest, ids);
    ReceiveStep(net, w1, w.sent);
    ReceiveDelivers(net, w1, w.sent);
    w2 := Next(net, w1, Receive(w.sent));
    BehindDiffers(net, e, rest);
    forall t | t in ids
      ensures Redeemed(net, w, w2, e, rest, t, to)
    {
      RecordsReturn(net, w, w1, w2, e, rest, ids, s', c', to, t);
    }
  }

  /** Redeemability: in every state that keeps the invariant, whoever holds vouchers can send them back over the
      channel they came by. The receive succeeds, the vouchers are gone, and the receiver owns the original tokens
      with the records they had in escrow. */
  lemma VouchersRedeemable(net: Net, w: World, e: End, rest: Text, ids: seq<Text>, holder: Address, receiver: Text)
    returns (a: Action, w1: World, w2: World, to: Address)
    requires ValidNet(net) && Inv(net, w) && Holds(net, w, e, rest, ids, holder)
    requires e.port == PORT_ID && !IsEscrow(net, e.chain, holder) && ValidAddress(holder)
    requires Readable(net.read(net.peer[e].chain), net.show(e.chain)(holder), receiver)
    ensures a == Send(e, ClassId(net.sha, Prefix(e) + rest), ids, holder, receiver)
    ensures w1 == Next(net, w, a) && w2 == Next(net, w1, Receive(w.sent)) && Inv(net, w2)
    ensures net.read(net.peer[e].chain)(receiver) == Some(to)
    ensures w.sent in w2.packets && w2.packets[w.sent].status.SuccessAck?
    ensures forall t :: t in ids ==> Redeemed(net, w, w2, e, rest, t, to)
  {
    a := SendBack(net, w, e, rest, ids, holder, receiver);
    var s', p;
    w1, s', p := SentWorld(net, w, a);
    w2, to := ComesHome(net, w, w1, s', p, holder, rest);
  }

  // ---- sending tokens outward -----------------------------------------------------------------------------------

  /** One token of an outward transfer: a voucher with its URI for the receiver, and the token in escrow with the rest
      of its record. */
  ghost predicate Arrived(net: Net, w: World, w2: World, src: End, path: Text, t: Text, to: Address) {
    && src in net.peer && src.chain in w.chains && src.chain in w2.chains && net.peer[src].chain in w2.chains
    && var dst, k := net.peer[src], Key(ClassId(net.sha, path), t);
       && k in w.chains[src.chain].nft.nfts && k in w2.chains[src.chain].nft.nfts
       && w2.chains[src.chain].nft.nfts[k] == w.chains[src.chain].nft.nfts[k].(owner := Escrow(net, src))
       && var v := Key(ClassId(net.sha, Prefix(dst) + path), t);
          && v in w2.chains[dst.chain].nft.nfts
          && w2.chains[dst.chain].nft.nfts[v] == Voucher(w.chains[src.chain].nft.nfts[k].uri, to)
  }

  lemma RecordsArrive(net: Net, w: World, w1: World, w2: World, src: End, path: Text, ids: seq<Text>, uris: seq<Text>,
                      s': Store, c': Chain, to: Address, i: nat)
    requires src in net.peer && src.chain in w.chains && net.peer[src].chain in w.chains && i < |ids| == |uris|
    requires UrisOf(w.chains[src.chain].nft, ClassId(net.sha, path), ids, uris)
    requires Moved(w.chains[src.chain].nft, s', ClassId(net.sha, path), ids, Escrow(net, src))
    requires w1.chains == w.chains[src.chain := w.chains[src.chain].(nft := s')]
    requires w2.chains == w1.chains[net.peer[src].chain := c']
    requires forall k :: k in w1.chains[net.peer[src].chain].nft.nfts ==>
               k in c'.nft.nfts && c'.nft.nfts[k] == w1.chains[net.peer[src].chain].nft.nfts[k]
    requires var v := Key(ClassId(net.sha, Prefix(net.peer[src]) + path), ids[i]);
             v in c'.nft.nfts && c'.nft.nfts[v] == Voucher(uris[i], to)
    ensures Arrived(net, w, w2, src, path, ids[i], to)
  {
    var k := Key(ClassId(net.sha, path), ids[i]);
    assert ids[i] in ids;
    assert s'.nfts[k] == w.chains[src.chain].nft.nfts[k].(owner := Escrow(net, src));
    assert k in w1.chains[src.chain].nft.nfts && w1.chains[src.chain].nft.nfts[k] == s'.nfts[k];
  }

  lemma AllArrive(net: Net, w: World, w1: World, w2: World, s': Store, p: Packet, sender: Address, c': Chain, to: Address)
    requires Sent(net, w, w1, s', p, sender) && Away(p) && net.peer[p.source].chain in w.chains
    requires |p.data.tokenUris| == |p.data.tokenIds|
    requires w2.chains == w1.chains[net.peer[p.source].chain := c']
    requires forall k :: k in w1.chains[net.peer[p.source].chain].nft.nfts ==>
               k in c'.nft.nfts && c'.nft.nfts[k] == w1.chains[net.peer[p.source].chain].nft.nfts[k]
    requires forall i :: 0 <= i < |p.data.tokenIds| ==>
               var v := Key(ClassId(net.sha, Prefix(net.peer[p.source]) + p.data.classId), p.data.tokenIds[i]);
               v in c'.nft.nfts && c'.nft.nfts[v] == Voucher(p.data.tokenUris[i], to)
    ensures forall t :: t in p.data.tokenIds ==> Arrived(net, w, w2, p.source, p.data.classId, t, to)
  {
    forall t | t in p.data.tokenIds
      ensures Arrived(net, w, w2, p.source, p.data.classId, t, to)
    {
      var i :| 0 <= i < |p.data.tokenIds| && p.data.tokenIds[i] == t;
      RecordsArrive(net, w, w1, w2, p.source, p.data.classId, p.data.tokenIds, p.data.tokenUris, s', c', to, i);
    }
  }

  /** The record of a voucher class after a receive: as it was, or else named by its id, with the URI of the class it
      stands for and the escrow account as its creator. */
  ghost predicate ClassRecord(before: Store, after: Store, id: Text, uri: Text, escrow: Address) {
    && id in after.denoms
    && after.denoms[id] == if id in before.denoms then before.denoms[id] else Denom(id, id, [], uri, escrow)
  }

  lemma ClassReceived(net: Net, w: World, p: Packet)
    requires p.source in net.peer && net.peer[p.source].chain in w.chains && Away(p) && Received(net, w, p).Ok?
    ensures var dst := net.peer[p.source];
            ClassRecord(w.chains[dst.chain].nft, Received(net, w, p).value.nft,
                        ClassId(net.sha, Prefix(dst) + p.data.classId), p.data.classUri, Escrow(net, dst))
  {
    var _, _ := OutwardAdds(net, w, p);
    assert SlotPath(net, p) == Prefix(net.peer[p.source]) + p.data.classId;
  }

  /** The class of an outward transfer at the receiver. */
  ghost predicate ClassArrived(net: Net, w: World, w2: World, src: End, path: Text) {
    && src in net.peer && src.chain in w.chains && net.peer[src].chain in w.chains && net.peer[src].chain in w2.chains
    && var dst, id := net.peer[src], ClassId(net.sha, path);
       && id in w.chains[src.chain].nft.denoms
       && ClassRecord(w.chains[dst.chain].nft, w2.chains[dst.chain].nft, ClassId(net.sha, Prefix(dst) + path),
                      w.chains[src.chain].nft.denoms[id].uri, Escrow(net, dst))
  }

  lemma ClassArrives(net: Net, w: World, w1: World, w2: World, s': Store, p: Packet, sender: Address)
    requires Sent(net, w, w1, s', p, sender) && Away(p) && net.peer[p.source].chain in w.chains
    requires Received(net, w1, p).Ok? && w2.chains == w1.chains[net.peer[p.source].chain := Received(net, w1, p).value]
    ensures ClassArrived(net, w, w2, p.source, p.data.classId)
  {
    ClassReceived(net, w1, p);
  }

  /** The class can be received: known already, or its id not another class's name. */
  ghost predicate Admits(net: Net, w: World, dst: End, path: Text) {
    && dst.chain in w.chains
    && var id, s := ClassId(net.sha, Prefix(dst) + path), w.chains[dst.chain].nft;
       id in s.denoms || id !in s.names
  }

  lemma SendKeepsNames(net: Net, w: World, w1: World, src: End, s': Store, dst: End, path: Text)
    requires src.chain in w.chains && SameDenoms(w.chains[src.chain].nft, s') && Admits(net, w, dst, path)
    requires w1.chains == w.chains[src.chain := w.chains[src.chain].(nft := s')]
    ensures Admits(net, w1, dst, path)
  {
  }

  lemma OutwardValid(read: Text -> Option<Address>, d: PacketData)
    requires d.tokenIds != [] && !Blank(d.classId) && |d.tokenUris| == |d.tokenIds|
    requires Readable(read, d.sender, d.receiver)
    ensures ValidateBasic(read, d).None?
  {
  }

  lemma OutwardAccepted(net: Net, w: World, p: Packet)
    requires ValidNet(net) && ChainsInv(net, w) && PacketOk(net, w, p) && Away(p)
    requires p.data.tokenIds != [] && !Blank(p.data.classId)
    requires Readable(net.read(net.peer[p.source].chain), p.data.sender, p.data.receiver)
    requires Admits(net, w, net.peer[p.source], p.data.classId)
    ensures Received(net, w, p).Ok?
  {
    OutwardValid(net.read(net.peer[p.source].chain), p.data);
    assert SlotPath(net, p) == Prefix(net.peer[p.source]) + p.data.classId;
    OutwardReceiveSucceeds(net, w, p);
  }

  /** What the receive of an outward packet does to the receiving chain. */
  lemma Mints(net: Net, w: World, p: Packet) returns (c': Chain, to: Address)
    requires ValidNet(net) && ChainsInv(net, w) && PacketOk(net, w, p) && Away(p)
    requires p.data.tokenIds != [] && !Blank(p.data.classId)
    requires Readable(net.read(net.peer[p.source].chain), p.data.sender, p.data.receiver)
    requires Admits(net, w, net.peer[p.source], p.data.classId)
    ensures Received(net, w, p) == Ok(c')
    ensures net.read(net.peer[p.source].chain)(p.data.receiver) == Some(to)
    ensures forall k :: k in w.chains[net.peer[p.source].chain].nft.nfts ==>
              k in c'.nft.nfts && c'.nft.nfts[k] == w.chains[net.peer[p.source].chain].nft.nfts[k]
    ensures |p.data.tokenUris| == |p.data.tokenIds|
    ensures forall i :: 0 <= i < |p.data.tokenIds| ==>
              var v := Key(ClassId(net.sha, Prefix(net.peer[p.source]) + p.data.classId), p.data.tokenIds[i]);
              v in c'.nft.nfts && c'.nft.nfts[v] == Voucher(p.data.tokenUris[i], to)
  {
    OutwardAccepted(net, w, p);
    var s;
    s, to := OutwardAdds(net, w, p);
    ReceiveMints(net, w, p);
    c' := Received(net, w, p).value;
  }

  lemma Arrives(net: Net, w: World, w1: World, s': Store, p: Packet, sender: Address) returns (w2: World, to: Address)
    requires ValidNet(net) && Inv(net, w1) && Sent(net, w, w1, s', p, sender)
    requires Away(p) && p.data.tokenIds != [] && !Blank(p.data.classId)
    requires Readable(net.read(net.peer[p.source].chain), p.data.sender, p.data.receiver)
    requires Admits(net, w, net.peer[p.source], p.data.classId)
    ensures w2 == Next(net, w1, Receive(w.sent)) && Inv(net, w2) && w2.sent == w.sent + 1
    ensures net.read(net.peer[p.source].chain)(p.data.receiver) == Some(to)
    ensures w.sent in w2.packets && w2.packets[w.sent].status.SuccessAck?
    ensures forall t :: t in p.data.tokenIds ==> Arrived(net, w, w2, p.source, p.data.classId, t, to)
    ensures ClassArrived(net, w, w2, p.source, p.data.classId)
  {
    SendKeepsNames(net, w, w1, p.source, s', net.peer[p.source], p.data.classId);
    var c';
    c', to := Mints(net, w1, p);
    ReceiveStep(net, w1, w.sent);
    ReceiveDelivers(net, w1, w.sent);
    w2 := Next(net, w1, Receive(w.sent));
    AllArrive(net, w, w1, w2, s', p, sender, c', to);
    ClassArrives(net, w, w1, w2, s', p, sender);
  }

  lemma ArrivedHolds(net: Net, w: World, w2: World, src: End, path: Text, ids: seq<Text>, to: Address)
    requires ValidNet(net) && src in net.peer && ids != [] && Distinct(ids)
    requires PathOk(net, net.peer[src].chain, Prefix(net.peer[src]) + path)
    requires forall t :: t in ids ==> Arrived(net, w, w2, src, path, t, to)
    ensures Holds(net, w2, net.peer[src], path, ids, to)
  {
    assert ids[0] in ids;
  }

  /** Delivery: an outward send whose addresses the receiving chain can read is received, the receiver owns a voucher
      with each token's URI, the voucher class has the URI of the class sent, and the tokens rest in escrow with the rest
      of their records. */
  lemma TokensDelivered(net: Net, w: World, a: Action, path: Text) returns (w1: World, w2: World, to: Address)
    requires ValidNet(net) && Inv(net, w) && a.Send? && NextSend(net, w, a) != w && a.ids != []
    requires a.src in net.peer && a.src.chain in w.chains
    requires ResolvePath(w.chains[a.src.chain].traces, a.denom) == Ok(path)
    requires IsAwayFromOrigin(a.src.port, a.src.channel, path) && !Blank(path)
    requires Readable(net.read(net.peer[a.src].chain), net.show(a.src.chain)(a.sender), a.receiver)
    requires Admits(net, w, net.peer[a.src], path)
    ensures w1 == Next(net, w, a) && w2 == Next(net, w1, Receive(w.sent)) && Inv(net, w2)
    ensures net.read(net.peer[a.src].chain)(a.receiver) == Some(to)
    ensures w.sent in w2.packets && w2.packets[w.sent].status.SuccessAck?
    ensures forall t :: t in a.ids ==> Arrived(net, w, w2, a.src, path, t, to)
    ensures ClassArrived(net, w, w2, a.src, path)
    ensures Holds(net, w2, net.peer[a.src], path, a.ids, to) && w2.sent == w.sent + 1
  {
    var s', p;
    w1, s', p := SentWorld(net, w, a);
    w2, to := Arrives(net, w, w1, s', p, a.sender);
    ArrivedHolds(net, w, w2, a.src, path, a.ids, to);
  }

  // ---- deliveries after other steps ---------------------------------------------------------------------------------

  /** A receive that is answered with success has gone through. */
  lemma DeliveredIs(net: Net, w: World, id: nat) returns (c': Chain)
    requires id in w.packets && w.packets[id].status.InFlight? && w.packets[id].source in net.peer
    requires id in Next(net, w, Receive(id)).packets && Next(net, w, Receive(id)).packets[id].status.SuccessAck?
    ensures net.peer[w.packets[id].source].chain in w.chains && Received(net, w, w.packets[id]) == Ok(c')
    ensures Next(net, w, Receive(id)).chains == w.chains[net.peer[w.packets[id].source].chain := c']
  {
    c' := Received(net, w, w.packets[id]).value;
  }

  /** Packet `id` is delivered by the step from w to w3, which leaves the receiving chain as c'. */
  ghost predicate Delivered(net: Net, w: World, w3: World, id: nat, c': Chain) {
    && Live(w, id) && Away(w.packets[id]) && w.packets[id].source in net.peer
    && net.peer[w.packets[id].source].chain in w.chains && Received(net, w, w.packets[id]) == Ok(c')
    && w3.chains == w.chains[net.peer[w.packets[id].source].chain := c']
  }

  lemma LateVoucher(net: Net, w: World, w3: World, id: nat, c': Chain, i: nat) returns (to: Address)
    requires Delivered(net, w, w3, id, c') && i < |w.packets[id].data.tokenIds|
    ensures
      var p := w.packets[id];
      var dst := net.peer[p.source];
      var v := Key(ClassId(net.sha, Prefix(dst) + p.data.classId), p.data.tokenIds[i]);
      && net.read(dst.chain)(p.data.receiver) == Some(to)
      && dst.chain in w3.chains && v in w3.chains[dst.chain].nft.nfts && i < |p.data.tokenUris|
      && w3.chains[dst.chain].nft.nfts[v] == Voucher(p.data.tokenUris[i], to)
  {
    var p := w.packets[id];
    var s;
    s, to := OutwardAdds(net, w, p);
    assert SlotPath(net, p) == Prefix(net.peer[p.source]) + p.data.classId;
    assert Key(ClassId(net.sha, SlotPath(net, p)), p.data.tokenIds[i]) in c'.nft.nfts;
  }

  lemma TokensKept(net: Net, w: World, w3: World, id: nat, c': Chain, x: nat, k: Key)
    requires Delivered(net, w, w3, id, c') && x in w.chains && k in w.chains[x].nft.nfts
    ensures x in w3.chains && k in w3.chains[x].nft.nfts && w3.chains[x].nft.nfts[k] == w.chains[x].nft.nfts[k]
  {
    var _, _ := OutwardAdds(net, w, w.packets[id]);
  }

  lemma RestingIs(net: Net, w: World, id: nat, t: Text) returns (k: Key)
    requires ValidNet(net) && Inv(net, w) && Live(w, id) && Away(w.packets[id]) && t in w.packets[id].data.tokenIds
    ensures k == Key(ClassId(net.sha, w.packets[id].data.classId), t) && w.packets[id].source.chain in w.chains
    ensures k in w.chains[w.packets[id].source.chain].nft.nfts
    ensures Restore.Resting(net, w, id, t) == w.chains[w.packets[id].source.chain].nft.nfts[k]
  {
    var p := w.packets[id];
    SlotHop(net, p);
    assert SlotHeld(net, w, p, t);
    k := Key(ClassId(net.sha, p.data.classId), t);
  }

  lemma LateEscrow(net: Net, w: World, w3: World, id: nat, c': Chain, t: Text)
    requires ValidNet(net) && Inv(net, w) && Delivered(net, w, w3, id, c') && t in w.packets[id].data.tokenIds
    ensures
      var p := w.packets[id];
      var k := Key(ClassId(net.sha, p.data.classId), t);
      && p.source.chain in w3.chains && k in w3.chains[p.source.chain].nft.nfts
      && w3.chains[p.source.chain].nft.nfts[k] == Restore.Resting(net, w, id, t)
  {
    var k := RestingIs(net, w, id, t);
    TokensKept(net, w, w3, id, c', w.packets[id].source.chain, k);
  }

  /** Whatever happens between the send and a delivery, the receiver gets a voucher with the URI that each token had
      when it was sent, a new voucher class gets the URI of the class sent, and the tokens rest in escrow with the rest
      of the records they had. */
  lemma DeliveredAfterRun(net: Net, w: World, a: Action, path: Text, run: seq<Action>, i: nat)
    returns (w2: World, w3: World, to: Address)
    requires ValidNet(net) && Inv(net, w) && a.Send? && NextSend(net, w, a) != w && i < |a.ids|
    requires a.src in net.peer && a.src.chain in w.chains
    requires ResolvePath(w.chains[a.src.chain].traces, a.denom) == Ok(path)
    requires IsAwayFromOrigin(a.src.port, a.src.channel, path)
    requires var w' := Run(net, Next(net, w, a), run);
             && w.sent in w'.packets && w'.packets[w.sent].status.InFlight?
             && w.sent in Next(net, w', Receive(w.sent)).packets
             && Next(net, w', Receive(w.sent)).packets[w.sent].status.SuccessAck?
    ensures w2 == Run(net, Next(net, w, a), run) && w3 == Next(net, w2, Receive(w.sent))
    ensures net.read(net.peer[a.src].chain)(a.receiver) == Some(to)
    ensures Arrived(net, w, w3, a.src, path, a.ids[i], to)
    ensures a.denom in w.chains[a.src.chain].nft.denoms
    ensures net.peer[a.src].chain in w2.chains && net.peer[a.src].chain in w3.chains
    ensures ClassRecord(w2.chains[net.peer[a.src].chain].nft, w3.chains[net.peer[a.src].chain].nft,
                        ClassId(net.sha, Prefix(net.peer[a.src]) + path),
                        w.chains[a.src.chain].nft.denoms[a.denom].uri, Escrow(net, net.peer[a.src]))
  {
    var w1, s', p := SentWorld(net, w, a);
    var id, t := w.sent, a.ids[i];
    w2 := Run(net, w1, run);
    w3 := Next(net, w2, Receive(id));
    RunKeepsInv(net, w1, run);
    Restore.RunPacketFixed(net, w1, run, id);
    Restore.EscrowedRests(net, w, w1, s', p, a.sender, id, t);
    Restore.RunRests(net, w1, run, id, t);
    var c' := DeliveredIs(net, w2, id);
    to := LateVoucher(net, w2, w3, id, c', i);
    LateEscrow(net, w2, w3, id, c', t);
    ClassReceived(net, w2, p);
  }

  // ---- there and home --------------------------------------------------------------------------------------------

  /** What has to hold for a transfer to the other end of a channel and back to go through. */
  ghost predicate CanTravel(net: Net, w: World, a: Action, path: Text, home: Text) {
    && a.Send? && NextSend(net, w, a) != w && a.ids != []
    && a.src in net.peer && a.src.chain in w.chains && net.peer[a.src].port == PORT_ID
    && ResolvePath(w.chains[a.src.chain].traces, a.denom) == Ok(path)
    && IsAwayFromOrigin(a.src.port, a.src.channel, path) && !Blank(path)
    && Admits(net, w, net.peer[a.src], path)
    && var there := net.peer[a.src].chain;
       && Readable(net.read(there), net.show(a.src.chain)(a.sender), a.receiver)
       && var holder := net.read(there)(a.receiver).value;
          !IsEscrow(net, there, holder) && Readable(net.read(a.src.chain), net.show(there)(holder), home)
  }

  /** A journey to the other end and back gives the tokens to the last receiver, with the records they started with. */
  lemma ThereAndHome(net: Net, w: World, a: Action, path: Text, home: Text)
    returns (back: Action, w4: World, to: Address)
    requires ValidNet(net) && Inv(net, w) && CanTravel(net, w, a, path, home)
    ensures w4 == Next(net, Next(net, Next(net, Next(net, w, a), Receive(w.sent)), back), Receive(w.sent + 1))
    ensures Inv(net, w4) && a.src.chain in w4.chains && net.read(a.src.chain)(home) == Some(to)
    ensures forall t :: t in a.ids ==>
      && Key(a.denom, t) in w.chains[a.src.chain].nft.nfts && Key(a.denom, t) in w4.chains[a.src.chain].nft.nfts
      && w4.chains[a.src.chain].nft.nfts[Key(a.denom, t)] == w.chains[a.src.chain].nft.nfts[Key(a.denom, t)].(owner := to)
  {
    var _, w2, holder := TokensDelivered(net, w, a, path);
    var w3;
    back, w3, w4, to := VouchersRedeemable(net, w2, net.peer[a.src], path, a.ids, holder, home);
    forall t | t in a.ids
      ensures Arrived(net, w, w2, a.src, path, t, holder) && Redeemed(net, w2, w4, net.peer[a.src], path, t, to)
    {
    }
  }
}
