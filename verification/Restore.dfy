/** Refunds give back exactly what was sent, and the redundant parts of every store stay exact. */
module Restore {
  import opened Bytes
  import opened ClassTraces
  import opened NftStore
  import opened TransferSpec
  import opened Network
  import opened NetworkSteps
  import opened NetworkPackets
  import opened NetworkDelivery
  import opened NetworkHandlers
  import opened NetworkTheorems

  // ---- the stores stay consistent over every run ------------------------------------------------------

  lemma {:induction false} TransferAllConsistent(s: Store, denom: Text, ids: seq<Text>, src: Address, dst: Address)
    requires Consistent(s) && TransferAll(s, denom, ids, src, dst).Ok?
    ensures Consistent(TransferAll(s, denom, ids, src, dst).value)
    decreases |ids|
  {
    if ids != [] {
      TransferKeepsConsistent(s, Key(denom, ids[0]), src, dst);
      TransferAllConsistent(TransferOwner(s, Key(denom, ids[0]), src, dst).value, denom, ids[1..], src, dst);
    }
  }

  lemma {:induction false} MintAllConsistent(s: Store, denom: Text, ids: seq<Text>, uris: seq<Text>,
                                             creator: Address, owner: Address)
    requires Consistent(s) && MintAll(s, denom, ids, uris, creator, owner).Ok?
    ensures Consistent(MintAll(s, denom, ids, uris, creator, owner).value)
    decreases |ids|
  {
    if ids != [] {
      var n := Voucher(uris[0], owner);
      MintKeepsConsistent(s, Key(denom, ids[0]), n);
      MintAllConsistent(Mint(s, Key(denom, ids[0]), n, creator).value, denom, ids[1..], uris[1..], creator, owner);
    }
  }

  lemma {:induction false} TakeAllConsistent(s: Store, denom: Text, ids: seq<Text>, sender: Address, away: bool,
                                             escrow: Address, uris: seq<Text>)
    requires Consistent(s) && TakeAll(s, denom, ids, sender, away, escrow, uris).Ok?
    ensures Consistent(TakeAll(s, denom, ids, sender, away, escrow, uris).value.0)
    decreases |ids|
  {
    if ids != [] {
      var k := Key(denom, ids[0]);
      if away {
        TransferKeepsConsistent(s, k, sender, escrow);
      } else {
        BurnKeepsConsistent(s, k, sender);
      }
      TakeAllConsistent(TakeOne(s, k, sender, away, escrow).value, denom, ids[1..], sender, away, escrow,
                        uris + [s.nfts[k].uri]);
    }
  }

  lemma MoveConsistent(s: Store, user: Address, m: Move)
    requires Consistent(s) && MoveResult(s, user, m).Ok?
    ensures Consistent(MoveResult(s, user, m).value)
  {
    match m
    case Issue(id, name, schema, uri) => SetDenomKeepsConsistent(s, Denom(id, name, schema, uri, user));
    case MintTo(k, n) => MintKeepsConsistent(s, k, n);
    case EditOwn(k, name, uri, data) => EditKeepsConsistent(s, k, name, uri, data, user);
    case Give(k, to) => TransferKeepsConsistent(s, k, user, to);
    case BurnOwn(k) => BurnKeepsConsistent(s, k, user);
  }

  lemma OutgoingConsistent(sha: Text -> Digest, c: Chain, port: Text, channel: Text, denom: Text, ids: seq<Text>,
                           sender: Address, senderText: Text, receiver: Text)
    requires Consistent(c.nft) && CreateOutgoing(sha, c, port, channel, denom, ids, sender, senderText, receiver).Ok?
    ensures Consistent(CreateOutgoing(sha, c, port, channel, denom, ids, sender, senderText, receiver).value.0.nft)
  {
    var path := ResolvePath(c.traces, denom).value;
    TakeAllConsistent(c.nft, denom, ids, sender, IsAwayFromOrigin(port, channel, path),
                      EscrowAddress(sha, port, channel), []);
  }

  lemma ReceivedConsistent(sha: Text -> Digest, read: Text -> Option<Address>, c: Chain,
                           srcPort: Text, srcChannel: Text, dstPort: Text, dstChannel: Text, d: PacketData)
    requires Consistent(c.nft) && OnRecv(sha, read, c, srcPort, srcChannel, dstPort, dstChannel, d).Ok?
    ensures Consistent(OnRecv(sha, read, c, srcPort, srcChannel, dstPort, dstChannel, d).value.nft)
  {
    var to := read(d.receiver).value;
    var escrow := EscrowAddress(sha, dstPort, dstChannel);
    if IsAwayFromOrigin(srcPort, srcChannel, d.classId) {
      var id := ClassId(sha, ClassPrefix(dstPort, dstChannel) + d.classId);
      if id !in c.nft.denoms {
        SetDenomKeepsConsistent(c.nft, Denom(id, id, [], d.classUri, escrow));
      }
      MintAllConsistent(WithClass(c.nft, id, d.classUri, escrow).value, id, d.tokenIds, d.tokenUris, escrow, to);
    } else {
      TransferAllConsistent(c.nft, ClassId(sha, RemoveClassPrefix(srcPort, srcChannel, d.classId)), d.tokenIds,
                            escrow, to);
    }
  }

  lemma RefundConsistent(sha: Text -> Digest, read: Text -> Option<Address>, c: Chain,
                         port: Text, channel: Text, d: PacketData)
    requires Consistent(c.nft) && Refund(sha, read, c, port, channel, d).Ok?
    ensures Consistent(Refund(sha, read, c, port, channel, d).value.nft)
  {
    var to := read(d.sender).value;
    if IsAwayFromOrigin(port, channel, d.classId) {
      TransferAllConsistent(c.nft, ClassId(sha, d.classId), d.tokenIds, EscrowAddress(sha, port, channel), to);
    } else {
      MintAllConsistent(c.nft, ClassId(sha, d.classId), d.tokenIds, d.tokenUris, EscrowAddress(sha, port, channel), to);
    }
  }

  ghost predicate AllConsistent(w: World) {
    forall x :: x in w.chains ==> Consistent(w.chains[x].nft)
  }

  lemma RefundStepConsistent(net: Net, w: World, id: nat)
    requires AllConsistent(w) && id in w.packets
    ensures AllConsistent(NextRefund(net, w, id))
  {
    var p := w.packets[id];
    var x := p.source.chain;
    if x in w.chains && Refunded(net, w, p).Ok? {
      RefundConsistent(net.sha, net.read(x), w.chains[x], p.source.port, p.source.channel, p.data);
    }
  }

  lemma SendStepConsistent(net: Net, w: World, a: Action)
    requires AllConsistent(w) && a.Send?
    ensures AllConsistent(NextSend(net, w, a))
  {
    var x := a.src.chain;
    if NextSend(net, w, a) != w {
      OutgoingConsistent(net.sha, w.chains[x], a.src.port, a.src.channel, a.denom, a.ids,
                         a.sender, net.show(x)(a.sender), a.receiver);
    }
  }

  lemma ReceiveStepConsistent(net: Net, w: World, id: nat)
    requires AllConsistent(w)
    ensures AllConsistent(NextReceive(net, w, id))
  {
    if NextReceive(net, w, id) != w {
      var p := w.packets[id];
      var dst := net.peer[p.source];
      if Received(net, w, p).Ok? {
        ReceivedConsistent(net.sha, net.read(dst.chain), w.chains[dst.chain],
                           p.source.port, p.source.channel, dst.port, dst.channel, p.data);
      }
    }
  }

  lemma NextKeepsConsistent(net: Net, w: World, a: Action)
    requires AllConsistent(w)
    ensures AllConsistent(Next(net, w, a))
  {
    match a
    case Send(_, _, _, _, _) => SendStepConsistent(net, w, a);
    case Receive(id) => ReceiveStepConsistent(net, w, id);
    case Acknowledge(id) =>
      if id in w.packets { RefundStepConsistent(net, w, id); }
    case Timeout(id) =>
      if id in w.packets { RefundStepConsistent(net, w, id); }
    case User(x, user, m) =>
      if x in w.chains && MoveResult(w.chains[x].nft, user, m).Ok? {
        MoveConsistent(w.chains[x].nft, user, m);
      }
  }

  /** Owner index, supply counters and denom indices are exact in every reachable state. */
  lemma {:induction false} RunKeepsConsistent(net: Net, w: World, run: seq<Action>)
    requires AllConsistent(w)
    ensures AllConsistent(Run(net, w, run))
    decreases |run|
  {
    if run != [] {
      NextKeepsConsistent(net, w, run[0]);
      RunKeepsConsistent(net, Next(net, w, run[0]), run[1..]);
    }
  }

  // ---- a packet's tokens rest until it is resolved ------------------------------------------------------

  /** An escrowed token that stays in escrow keeps its whole record. */
  ghost predicate EscrowStable(net: Net, x: nat, s: Store, s': Store) {
    forall k :: k in s.nfts && k in s'.nfts && IsEscrow(net, x, s.nfts[k].owner) && s'.nfts[k].owner == s.nfts[k].owner
      ==> s'.nfts[k] == s.nfts[k]
  }

  ghost predicate WorldStable(net: Net, w: World, w': World) {
    forall x :: x in w.chains ==> x in w'.chains && EscrowStable(net, x, w.chains[x].nft, w'.chains[x].nft)
  }

  lemma MintedStable(net: Net, x: nat, p: Packet, c: Chain, c': Chain)
    requires Minted(net, p, c, c')
    ensures EscrowStable(net, x, c.nft, c'.nft)
  {
  }

  lemma ReleasedStable(net: Net, x: nat, p: Packet, c: Chain, c': Chain, to: Address)
    requires Released(net, p, c, c', to)
    ensures EscrowStable(net, x, c.nft, c'.nft)
  {
  }

  lemma LocalStable(net: Net, x: nat, s: Store, s': Store)
    requires Local(net, x, s, s')
    ensures EscrowStable(net, x, s, s')
  {
  }

  lemma ReturnStable(net: Net, w: World, p: Packet)
    requires ValidNet(net) && ChainsInv(net, w) && PacketOk(net, w, p) && Refunded(net, w, p).Ok?
    ensures var x := p.source.chain; EscrowStable(net, x, w.chains[x].nft, Refunded(net, w, p).value.nft)
  {
    var x := p.source.chain;
    if Away(p) {
      var to := RefundReleases(net, w, p);
      ReleasedStable(net, x, p, w.chains[x], Refunded(net, w, p).value, to);
    } else {
      RefundMints(net, w, p);
      MintedStable(net, x, p, w.chains[x], Refunded(net, w, p).value);
    }
  }

  lemma OneChainStable(net: Net, w: World, w': World, x: nat, c: Chain)
    requires x in w.chains && w'.chains == w.chains[x := c]
    requires EscrowStable(net, x, w.chains[x].nft, c.nft)
    ensures WorldStable(net, w, w')
  {
  }

  lemma SameChainsStable(net: Net, w: World, w': World)
    requires w'.chains == w.chains
    ensures WorldStable(net, w, w')
  {
  }

  lemma RefundStable(net: Net, w: World, id: nat)
    requires ValidNet(net) && Inv(net, w) && Live(w, id)
    ensures WorldStable(net, w, NextRefund(net, w, id))
  {
    RefundSucceeds(net, w, w.packets[id]);
    ReturnStable(net, w, w.packets[id]);
    OneChainStable(net, w, NextRefund(net, w, id), w.packets[id].source.chain,
                   Refunded(net, w, w.packets[id]).value);
  }

  lemma DeliveryStable(net: Net, w: World, p: Packet)
    requires ValidNet(net) && ChainsInv(net, w) && PacketOk(net, w, p)
    requires Received(net, w, p).Ok?
    ensures var x := net.peer[p.source].chain;
            EscrowStable(net, x, w.chains[x].nft, Received(net, w, p).value.nft)
  {
    var x := net.peer[p.source].chain;
    if Away(p) {
      ReceiveMints(net, w, p);
      MintedStable(net, x, p, w.chains[x], Received(net, w, p).value);
    } else {
      var to := ReceiveReleases(net, w, p);
      ReleasedStable(net, x, p, w.chains[x], Received(net, w, p).value, to);
    }
  }

  lemma ReceiveStable(net: Net, w: World, id: nat)
    requires ValidNet(net) && Inv(net, w)
    ensures WorldStable(net, w, NextReceive(net, w, id))
  {
    if NextReceive(net, w, id) != w && Received(net, w, w.packets[id]).Ok? {
      assert Live(w, id);
      DeliveryStable(net, w, w.packets[id]);
      OneChainStable(net, w, NextReceive(net, w, id), net.peer[w.packets[id].source].chain,
                     Received(net, w, w.packets[id]).value);
    } else {
      SameChainsStable(net, w, NextReceive(net, w, id));
    }
  }

  lemma SendStable(net: Net, w: World, a: Action)
    requires ValidNet(net) && Inv(net, w) && a.Send?
    ensures WorldStable(net, w, NextSend(net, w, a))
  {
    if NextSend(net, w, a) != w {
      var s', p := SendShape(net, w, a);
      var x := a.src.chain;
      SentIsLocal(net, x, w.chains[x], s', p, a.sender);
      LocalStable(net, x, w.chains[x].nft, s');
      OneChainStable(net, w, NextSend(net, w, a), x, w.chains[x].(nft := s'));
    } else {
      SameChainsStable(net, w, NextSend(net, w, a));
    }
  }

  lemma UserStable(net: Net, w: World, x: nat, user: Address, m: Move)
    requires ValidNet(net) && Inv(net, w)
    ensures WorldStable(net, w, NextUser(net, w, x, user, m))
  {
    if x in w.chains && !IsEscrow(net, x, user) && MoveResult(w.chains[x].nft, user, m).Ok? {
      MoveIsLocal(net, x, w.chains[x], user, m);
      var s' := MoveResult(w.chains[x].nft, user, m).value;
      LocalStable(net, x, w.chains[x].nft, s');
      OneChainStable(net, w, NextUser(net, w, x, user, m), x, w.chains[x].(nft := s'));
    } else {
      SameChainsStable(net, w, NextUser(net, w, x, user, m));
    }
  }

  lemma NextStable(net: Net, w: World, a: Action)
    requires ValidNet(net) && Inv(net, w)
    ensures WorldStable(net, w, Next(net, w, a))
  {
    match a
    case Send(_, _, _, _, _) => SendStable(net, w, a);
    case Receive(id) => ReceiveStable(net, w, id);
    case User(x, user, m) => UserStable(net, w, x, user, m);
    case _ =>
      if a.id in w.packets && Next(net, w, a) == NextRefund(net, w, a.id) && Live(w, a.id) {
        RefundStable(net, w, a.id);
      } else {
        SameChainsStable(net, w, Next(net, w, a));
      }
  }

  /** Packet identifiers are not used again, and a live packet keeps its contents. */
  lemma PacketFixed(net: Net, w: World, a: Action, id: nat)
    requires id < w.sent && Live(Next(net, w, a), id)
    ensures Live(w, id) && w.sent <= Next(net, w, a).sent
    ensures Next(net, w, a).packets[id] == w.packets[id].(status := Next(net, w, a).packets[id].status)
  {
  }

  lemma {:induction false} RunPacketFixed(net: Net, w: World, run: seq<Action>, id: nat)
    requires id < w.sent && Live(Run(net, w, run), id)
    ensures Live(w, id)
    ensures Run(net, w, run).packets[id] == w.packets[id].(status := Run(net, w, run).packets[id].status)
    decreases |run|
  {
    if run != [] {
      SentGrows(net, w, run[0]);
      RunPacketFixed(net, Next(net, w, run[0]), run[1..], id);
      PacketFixed(net, w, run[0], id);
    }
  }

  lemma SentGrows(net: Net, w: World, a: Action)
    ensures w.sent <= Next(net, w, a).sent
  {
  }

  /** The record of a token escrowed for a live packet. */
  ghost function Resting(net: Net, w: World, id: nat, t: Text): (n: Nft)
    requires Inv(net, w) && Live(w, id) && Away(w.packets[id]) && t in w.packets[id].data.tokenIds
    requires ValidNet(net)
    ensures n.owner == Escrow(net, w.packets[id].source)
  {
    var p := w.packets[id];
    SlotHop(net, p);
    assert SlotHeld(net, w, p, t);
    w.chains[p.source.chain].nft.nfts[Key(ClassId(net.sha, p.data.classId), t)]
  }

  lemma StepRests(net: Net, w: World, a: Action, id: nat, t: Text)
    requires ValidNet(net) && Inv(net, w) && Live(w, id) && Live(Next(net, w, a), id)
    requires Away(w.packets[id]) && t in w.packets[id].data.tokenIds
    ensures Inv(net, Next(net, w, a))
    ensures Next(net, w, a).packets[id] == w.packets[id].(status := Next(net, w, a).packets[id].status)
    ensures Resting(net, Next(net, w, a), id, t) == Resting(net, w, id, t)
  {
    var w' := Next(net, w, a);
    NextKeepsInv(net, w, a);
    PacketFixed(net, w, a, id);
    NextStable(net, w, a);
    var p := w.packets[id];
    var x := p.source.chain;
    var k := Key(ClassId(net.sha, p.data.classId), t);
    assert Resting(net, w, id, t) == w.chains[x].nft.nfts[k];
    assert Resting(net, w', id, t) == w'.chains[x].nft.nfts[k];
    assert EscrowStable(net, x, w.chains[x].nft, w'.chains[x].nft);
    assert IsEscrow(net, x, Escrow(net, p.source));
  }

  lemma {:induction false} RunRests(net: Net, w: World, run: seq<Action>, id: nat, t: Text)
    requires ValidNet(net) && Inv(net, w) && Live(w, id) && Live(Run(net, w, run), id)
    requires Away(w.packets[id]) && t in w.packets[id].data.tokenIds
    ensures Inv(net, Run(net, w, run))
    ensures Run(net, w, run).packets[id] == w.packets[id].(status := Run(net, w, run).packets[id].status)
    ensures Resting(net, Run(net, w, run), id, t) == Resting(net, w, id, t)
    decreases |run|
  {
    if run != [] {
      var w' := Next(net, w, run[0]);
      SentGrows(net, w, run[0]);
      RunPacketFixed(net, w', run[1..], id);
      StepRests(net, w, run[0], id, t);
      RunRests(net, w', run[1..], id, t);
    }
  }

  // ---- refunds ----------------------------------------------------------------------------------------

  lemma ReturnedEscrowed(net: Net, w: World, id: nat, n: Nft, sender: Address, t: Text)
    requires ValidNet(net) && Inv(net, w) && Live(w, id) && Away(w.packets[id]) && t in w.packets[id].data.tokenIds
    requires w.packets[id].data.sender == net.show(w.packets[id].source.chain)(sender)
    requires n.owner == sender && ValidAddress(sender)
    requires Resting(net, w, id, t) == n.(owner := Escrow(net, w.packets[id].source))
    ensures var p := w.packets[id];
            var k := Key(ClassId(net.sha, p.data.classId), t);
            && Refunded(net, w, p).Ok?
            && k in Refunded(net, w, p).value.nft.nfts && Refunded(net, w, p).value.nft.nfts[k] == n
  {
    var p := w.packets[id];
    var x := p.source.chain;
    assert net.read(x)(net.show(x)(sender)) == Some(sender);
    RefundSucceeds(net, w, p);
    var to := RefundReleases(net, w, p);
    var k := Key(ClassId(net.sha, p.data.classId), t);
    assert Resting(net, w, id, t) == w.chains[x].nft.nfts[k];
  }

  lemma ReturnedBurned(net: Net, w: World, p: Packet, n: Nft, sender: Address, i: nat)
    requires ValidNet(net) && ChainsInv(net, w) && PacketOk(net, w, p) && !Away(p) && i < |p.data.tokenIds|
    requires p.data.sender == net.show(p.source.chain)(sender) && ValidAddress(sender)
    requires n == Voucher(p.data.tokenUris[i], sender)
    ensures var k := Key(ClassId(net.sha, p.data.classId), p.data.tokenIds[i]);
            && Refunded(net, w, p).Ok?
            && k in Refunded(net, w, p).value.nft.nfts && Refunded(net, w, p).value.nft.nfts[k] == n
  {
    var x := p.source.chain;
    assert net.read(x)(net.show(x)(sender)) == Some(sender);
    RefundSucceeds(net, w, p);
    MintAllAdds(w.chains[x].nft, ClassId(net.sha, p.data.classId), p.data.tokenIds, p.data.tokenUris,
                Escrow(net, p.source), sender);
  }

  /** A token burned by a send had the blank fields with which a refund mints it again. */
  lemma BurnedWasVoucher(net: Net, x: nat, c: Chain, s': Store, p: Packet, sender: Address, i: nat)
    requires ValidNet(net) && p.source in net.peer && p.source.chain == x && !Away(p)
    requires ChainOk(net, x, c) && SentFrom(net, x, c, s', p, sender) && i < |p.data.tokenIds|
    ensures var k := Key(ClassId(net.sha, p.data.classId), p.data.tokenIds[i]);
            k in c.nft.nfts && c.nft.nfts[k] == Voucher(p.data.tokenUris[i], sender)
  {
    VoucherKeyNotNative(net, p);
    SlotHop(net, p);
    var t := p.data.tokenIds[i];
    assert t in p.data.tokenIds;
    assert Key(ClassId(net.sha, p.data.classId), t) in c.nft.nfts;
  }

  lemma EscrowedRests(net: Net, w: World, w1: World, s': Store, p: Packet, sender: Address, id: nat, t: Text)
    requires ValidNet(net) && p.source in net.peer && p.source.chain in w.chains && Away(p) && t in p.data.tokenIds
    requires SentFrom(net, p.source.chain, w.chains[p.source.chain], s', p, sender)
    requires w1.chains == w.chains[p.source.chain := w.chains[p.source.chain].(nft := s')]
    requires Inv(net, w1) && Live(w1, id) && w1.packets[id] == p
    ensures var k := Key(ClassId(net.sha, p.data.classId), t);
            var s := w.chains[p.source.chain].nft;
            && k in s.nfts && s.nfts[k].owner == sender
            && Resting(net, w1, id, t) == s.nfts[k].(owner := Escrow(net, p.source))
  {
    var k := Key(ClassId(net.sha, p.data.classId), t);
    assert k in w.chains[p.source.chain].nft.nfts;
    assert Resting(net, w1, id, t) == w1.chains[p.source.chain].nft.nfts[k];
  }

  /** What brings a packet's tokens back: a timeout while it is in flight, or its error acknowledgement. */
  function Resolving(w: World, id: nat): Action
    requires id in w.packets
  {
    if w.packets[id].status.InFlight? then Timeout(id) else Acknowledge(id)
  }

  lemma ResolvingRefunds(net: Net, w: World, id: nat)
    requires Live(w, id)
    ensures Next(net, w, Resolving(w, id)) == NextRefund(net, w, id)
  {
  }

  lemma RefundReturns(net: Net, w: World, a: Action, run: seq<Action>, i: nat)
    requires ValidNet(net) && Inv(net, w) && a.Send? && NextSend(net, w, a) != w && i < |a.ids|
    requires Live(Run(net, NextSend(net, w, a), run), w.sent)
    ensures var w' := NextRefund(net, Run(net, NextSend(net, w, a), run), w.sent);
            var x, k := a.src.chain, Key(a.denom, a.ids[i]);
            && w.sent !in w'.packets
            && x in w.chains && k in w.chains[x].nft.nfts
            && x in w'.chains && k in w'.chains[x].nft.nfts
            && w'.chains[x].nft.nfts[k] == w.chains[x].nft.nfts[k]
  {
    var s', p := SendShape(net, w, a);
    var w1 := NextSend(net, w, a);
    var id := w.sent;
    SendStep(net, w, a);
    assert Live(w1, id) && w1.packets[id] == p;
    var w2 := Run(net, w1, run);
    RunKeepsInv(net, w1, run);
    RunPacketFixed(net, w1, run, id);
    RefundStep(net, w2, id);
    var q := w2.packets[id];
    var t := a.ids[i];
    if Away(p) {
      EscrowedRests(net, w, w1, s', p, a.sender, id, t);
      RunRests(net, w1, run, id, t);
      ReturnedEscrowed(net, w2, id, w.chains[a.src.chain].nft.nfts[Key(a.denom, t)], a.sender, t);
    } else {
      BurnedWasVoucher(net, a.src.chain, w.chains[a.src.chain], s', p, a.sender, i);
      ReturnedBurned(net, w2, q, w.chains[a.src.chain].nft.nfts[Key(a.denom, t)], a.sender, i);
    }
  }

  /** Whatever happens in between, the timeout or the error acknowledgement of a packet that is still live gives every
      token back to its sender with the record it had before the send. */
  lemma RefundRestores(net: Net, w: World, a: Action, run: seq<Action>, i: nat)
    requires ValidNet(net) && Inv(net, w) && a.Send? && NextSend(net, w, a) != w && i < |a.ids|
    requires Live(Run(net, NextSend(net, w, a), run), w.sent)
    ensures var w2 := Run(net, NextSend(net, w, a), run);
            var w' := Next(net, w2, Resolving(w2, w.sent));
            var x, k := a.src.chain, Key(a.denom, a.ids[i]);
            && w.sent !in w'.packets
            && x in w.chains && k in w.chains[x].nft.nfts
            && x in w'.chains && k in w'.chains[x].nft.nfts
            && w'.chains[x].nft.nfts[k] == w.chains[x].nft.nfts[k]
  {
    RefundReturns(net, w, a, run, i);
    ResolvingRefunds(net, Run(net, NextSend(net, w, a), run), w.sent);
  }

  /** A packet that is delivered or refunded stays so, and no step about it moves a token again. */
  lemma ResolvedForEver(net: Net, w: World, run: seq<Action>, id: nat)
    requires id < w.sent && !Live(w, id)
    ensures var w' := Run(net, w, run);
            && !Live(w', id)
            && Next(net, w', Receive(id)) == w'
            && Next(net, w', Timeout(id)) == w'
            && Next(net, w', Acknowledge(id)) == w'.(packets := w'.packets - {id})
  {
    if Live(Run(net, w, run), id) {
      RunPacketFixed(net, w, run, id);
    }
  }

  // ---- the class supply --------------------------------------------------------------------------------

  lemma {:induction false} KeysOf(denom: Text, ids: seq<Text>) returns (keys: set<Key>)
    requires Distinct(ids)
    ensures |keys| == |ids| && forall k :: k in keys <==> k.denom == denom && k.token in ids
    decreases |ids|
  {
    if ids == [] {
      keys := {};
    } else {
      DistinctTail(ids);
      var rest := KeysOf(denom, ids[1..]);
      keys := rest + {Key(denom, ids[0])};
    }
  }

  lemma AddedCount(s: Store, s': Store, denom: Text, ids: seq<Text>, uris: seq<Text>, owner: Address)
    requires Distinct(ids) && NonePresent(s, denom, ids) && Added(s, s', denom, ids, uris, owner)
    ensures |TokensOf(s', denom)| == |TokensOf(s, denom)| + |ids|
  {
    var keys := KeysOf(denom, ids);
    assert TokensOf(s', denom) == TokensOf(s, denom) + keys;
    assert TokensOf(s, denom) !! keys by {
      forall k | k in keys ensures k !in s.nfts {
        assert k == Key(denom, k.token);
      }
    }
  }

  lemma RemovedCount(s: Store, s': Store, denom: Text, ids: seq<Text>, a: Address)
    requires Distinct(ids) && AllOwned(s, denom, ids, a) && Removed(s, s', denom, ids)
    ensures |TokensOf(s, denom)| == |TokensOf(s', denom)| + |ids|
  {
    var keys := KeysOf(denom, ids);
    forall k | k in keys ensures k in s.nfts {
      assert k == Key(denom, k.token);
    }
    assert TokensOf(s, denom) == TokensOf(s', denom) + keys;
    assert TokensOf(s', denom) !! keys;
  }

  /** What a packet takes off the supply of its class, on the sending chain. */
  function Burnt(p: Packet): nat {
    if Away(p) then 0 else |p.data.tokenIds|
  }

  lemma MovedCount(s: Store, s': Store, denom: Text, ids: seq<Text>, to: Address)
    requires Moved(s, s', denom, ids, to)
    ensures |TokensOf(s', denom)| == |TokensOf(s, denom)|
  {
    assert TokensOf(s', denom) == TokensOf(s, denom);
  }

  /** A homeward send takes its tokens out of the class; an outward send leaves the class as large. */
  lemma CountTaken(net: Net, x: nat, c: Chain, s': Store, p: Packet, sender: Address)
    requires SentFrom(net, x, c, s', p, sender)
    ensures var d := ClassId(net.sha, p.data.classId); |TokensOf(c.nft, d)| == |TokensOf(s', d)| + Burnt(p)
  {
    var d := ClassId(net.sha, p.data.classId);
    if Away(p) {
      MovedCount(c.nft, s', d, p.data.tokenIds, Escrow(net, p.source));
    } else {
      RemovedCount(c.nft, s', d, p.data.tokenIds, sender);
    }
  }

  /** A refund makes the class as much larger as the send made it smaller. */
  lemma CountReturned(net: Net, w: World, p: Packet)
    requires ValidNet(net) && ChainsInv(net, w) && PacketOk(net, w, p) && Refunded(net, w, p).Ok?
    ensures var d := ClassId(net.sha, p.data.classId);
            |TokensOf(Refunded(net, w, p).value.nft, d)| == |TokensOf(w.chains[p.source.chain].nft, d)| + Burnt(p)
  {
    var d := ClassId(net.sha, p.data.classId);
    var s, s' := w.chains[p.source.chain].nft, Refunded(net, w, p).value.nft;
    var to := net.read(p.source.chain)(p.data.sender).value;
    if Away(p) {
      TransferAllMoves(s, d, p.data.tokenIds, Escrow(net, p.source), to);
      MovedCount(s, s', d, p.data.tokenIds, to);
    } else {
      MintAllAdds(s, d, p.data.tokenIds, p.data.tokenUris, Escrow(net, p.source), to);
      SlotHop(net, p);
      HeldTokens(net, w, p);
      AddedCount(s, s', d, p.data.tokenIds, p.data.tokenUris, to);
    }
  }

  /** Whatever happens between the send and the refund, the two together change the size of the class by nothing: it
      moves only as far as the steps in between move it. */
  lemma RefundRestoresSize(net: Net, w: World, a: Action, run: seq<Action>) returns (w1: World, w2: World, w3: World)
    requires ValidNet(net) && Inv(net, w) && a.Send? && NextSend(net, w, a) != w
    requires Live(Run(net, NextSend(net, w, a), run), w.sent)
    ensures w1 == NextSend(net, w, a) && w2 == Run(net, w1, run) && Live(w2, w.sent)
    ensures w3 == Next(net, w2, Resolving(w2, w.sent))
    ensures var x := a.src.chain; x in w.chains && x in w1.chains && x in w2.chains && x in w3.chains
    ensures Size(w3, a.src.chain, a.denom) - Size(w, a.src.chain, a.denom)
         == Size(w2, a.src.chain, a.denom) - Size(w1, a.src.chain, a.denom)
  {
    var s', p := SendShape(net, w, a);
    w1 := NextSend(net, w, a);
    SendStep(net, w, a);
    assert Live(w1, w.sent) && w1.packets[w.sent] == p;
    CountTaken(net, a.src.chain, w.chains[a.src.chain], s', p, a.sender);
    w2 := Run(net, w1, run);
    RunKeepsInv(net, w1, run);
    RunPacketFixed(net, w1, run, w.sent);
    w3 := NextRefund(net, w2, w.sent);
    ResolvingRefunds(net, w2, w.sent);
    SizeReturned(net, w2, w.sent, p);
  }

  lemma SizeReturned(net: Net, w: World, id: nat, p: Packet)
    requires ValidNet(net) && Inv(net, w) && Live(w, id) && w.packets[id] == p.(status := w.packets[id].status)
    ensures p.source.chain in w.chains && p.source.chain in NextRefund(net, w, id).chains
    ensures Size(NextRefund(net, w, id), p.source.chain, ClassId(net.sha, p.data.classId))
         == Size(w, p.source.chain, ClassId(net.sha, p.data.classId)) + Burnt(p)
  {
    RefundSucceeds(net, w, w.packets[id]);
    CountReturned(net, w, w.packets[id]);
  }

  /** How many tokens a class has on a chain. */
  ghost function Size(w: World, x: nat, denom: Text): int
    requires x in w.chains
  {
    |TokensOf(w.chains[x].nft, denom)|
  }

  lemma Wrapped(x: int, k: int)
    ensures (x + TWO64 * k) % TWO64 == x % TWO64
  {
  }

  /** Counters that wrap around move as what they count does. */
  lemma Residues(a: int, b: int, c: int, d: int, a': int, b': int, c': int, d': int)
    requires a - b == c - d
    requires a' == a % TWO64 && b' == b % TWO64 && c' == c % TWO64 && d' == d % TWO64
    ensures (a' - b') % TWO64 == (c' - d') % TWO64
    ensures c' == d' ==> a' == b'
  {
    var k := (b / TWO64 - a / TWO64) - (d / TWO64 - c / TWO64);
    assert a' - b' == (c' - d') + TWO64 * k;
    Wrapped(c' - d', k);
  }

  /** The same for the supply counters, in their 64-bit arithmetic; they are as before the send if the steps in between
      left them alone. */
  lemma RefundRestoresSupply(net: Net, w: World, a: Action, run: seq<Action>)
    returns (w1: World, w2: World, w3: World)
    requires ValidNet(net) && Inv(net, w) && AllConsistent(w) && a.Send? && NextSend(net, w, a) != w
    requires Live(Run(net, NextSend(net, w, a), run), w.sent)
    ensures w1 == NextSend(net, w, a) && w2 == Run(net, w1, run) && Live(w2, w.sent)
    ensures w3 == Next(net, w2, Resolving(w2, w.sent))
    ensures SupplyRestored(w, w1, w2, w3, a.src.chain, a.denom)
  {
    w1, w2, w3 := RefundRestoresSize(net, w, a, run);
    SuppliesAre(net, w, a, run, a.src.chain, a.denom);
    ResolvingRefunds(net, w2, w.sent);
    SupplyMoves(w, w1, w2, w3, a.src.chain, a.denom);
  }

  ghost predicate SupplyRestored(w: World, w1: World, w2: World, w3: World, x: nat, d: Text) {
    && x in w.chains && x in w1.chains && x in w2.chains && x in w3.chains
    && (Supply(w3, x, d) - Supply(w, x, d)) % TWO64 == (Supply(w2, x, d) - Supply(w1, x, d)) % TWO64
    && (Supply(w2, x, d) == Supply(w1, x, d) ==> Supply(w3, x, d) == Supply(w, x, d))
  }

  lemma SupplyMoves(w: World, w1: World, w2: World, w3: World, x: nat, d: Text)
    requires Counted(w, x, d) && Counted(w1, x, d) && Counted(w2, x, d) && Counted(w3, x, d)
    requires x in w.chains && x in w1.chains && x in w2.chains && x in w3.chains
    requires Size(w3, x, d) - Size(w, x, d) == Size(w2, x, d) - Size(w1, x, d)
    ensures SupplyRestored(w, w1, w2, w3, x, d)
  {
    Residues(Size(w3, x, d), Size(w, x, d), Size(w2, x, d), Size(w1, x, d),
             Supply(w3, x, d), Supply(w, x, d), Supply(w2, x, d), Supply(w1, x, d));
  }

  lemma SuppliesAre(net: Net, w: World, a: Action, run: seq<Action>, x: nat, d: Text)
    requires AllConsistent(w) && a.Send? && w.sent in Run(net, NextSend(net, w, a), run).packets
    ensures Counted(w, x, d) && Counted(NextSend(net, w, a), x, d) && Counted(Run(net, NextSend(net, w, a), run), x, d)
    ensures Counted(NextRefund(net, Run(net, NextSend(net, w, a), run), w.sent), x, d)
  {
    var w1 := NextSend(net, w, a);
    SendStepConsistent(net, w, a);
    RunKeepsConsistent(net, w1, run);
    RefundStepConsistent(net, Run(net, w1, run), w.sent);
    SupplyIsSize(w, x, d);
    SupplyIsSize(w1, x, d);
    SupplyIsSize(Run(net, w1, run), x, d);
    SupplyIsSize(NextRefund(net, Run(net, w1, run), w.sent), x, d);
  }

  function Supply(w: World, x: nat, denom: Text): int
    requires x in w.chains
  {
    TotalSupply(w.chains[x].nft, denom)
  }

  ghost predicate Counted(w: World, x: nat, denom: Text) {
    x in w.chains ==> Supply(w, x, denom) == Size(w, x, denom) % TWO64
  }

  lemma SupplyIsSize(w: World, x: nat, denom: Text)
    requires AllConsistent(w)
    ensures Counted(w, x, denom)
  {
  }

  // ---- undoing a send at once ---------------------------------------------------------------------------

  lemma MovedBack(s: Store, s1: Store, s2: Store, denom: Text, ids: seq<Text>, a: Address, escrow: Address)
    requires AllOwned(s, denom, ids, a) && Moved(s, s1, denom, ids, escrow) && Moved(s1, s2, denom, ids, a)
    ensures s2.nfts == s.nfts && SameDenoms(s, s2)
  {
    forall k | k in s.nfts ensures s2.nfts[k] == s.nfts[k] {
      assert k == Key(k.denom, k.token);
    }
  }

  lemma AddedBack(s: Store, s1: Store, s2: Store, denom: Text, ids: seq<Text>, uris: seq<Text>, a: Address)
    requires Removed(s, s1, denom, ids) && Added(s1, s2, denom, ids, uris, a)
    requires forall i :: 0 <= i < |ids| ==>
               Key(denom, ids[i]) in s.nfts && s.nfts[Key(denom, ids[i])] == Voucher(uris[i], a)
    ensures s2.nfts == s.nfts && SameDenoms(s, s2)
  {
    forall k | k in s2.nfts ensures k in s.nfts && s2.nfts[k] == s.nfts[k] {
      if k !in s1.nfts {
        var i :| 0 <= i < |ids| && ids[i] == k.token;
        assert k == Key(denom, ids[i]);
      }
    }
    forall k | k in s.nfts ensures k in s2.nfts {
    }
  }

  lemma RefundedTokens(net: Net, w: World, w1: World, s': Store, p: Packet, sender: Address)
    requires ValidNet(net) && ChainsInv(net, w) && p.source in net.peer && p.source.chain in w.chains
    requires SentFrom(net, p.source.chain, w.chains[p.source.chain], s', p, sender)
    requires w1.chains == w.chains[p.source.chain := w.chains[p.source.chain].(nft := s')]
    requires Refunded(net, w1, p).Ok?
    ensures var s, s2 := w.chains[p.source.chain].nft, Refunded(net, w1, p).value.nft;
            s2.nfts == s.nfts && SameDenoms(s, s2)
  {
    var x := p.source.chain;
    var d := ClassId(net.sha, p.data.classId);
    var s, s2 := w.chains[x].nft, Refunded(net, w1, p).value.nft;
    assert net.read(x)(net.show(x)(sender)) == Some(sender);
    if Away(p) {
      TransferAllMoves(s', d, p.data.tokenIds, Escrow(net, p.source), sender);
      MovedBack(s, s', s2, d, p.data.tokenIds, sender, Escrow(net, p.source));
    } else {
      MintAllAdds(s', d, p.data.tokenIds, p.data.tokenUris, Escrow(net, p.source), sender);
      forall i | 0 <= i < |p.data.tokenIds|
        ensures Key(d, p.data.tokenIds[i]) in s.nfts
        ensures s.nfts[Key(d, p.data.tokenIds[i])] == Voucher(p.data.tokenUris[i], sender)
      {
        BurnedWasVoucher(net, x, w.chains[x], s', p, sender, i);
      }
      AddedBack(s, s', s2, d, p.data.tokenIds, p.data.tokenUris, sender);
    }
  }

  lemma RefundedRest(net: Net, w1: World, p: Packet)
    requires p.source.chain in w1.chains && Refunded(net, w1, p).Ok?
    requires Consistent(w1.chains[p.source.chain].nft)
    ensures Consistent(Refunded(net, w1, p).value.nft)
    ensures Refunded(net, w1, p).value.traces == w1.chains[p.source.chain].traces
  {
    var x := p.source.chain;
    RefundConsistent(net.sha, net.read(x), w1.chains[x], p.source.port, p.source.channel, p.data);
  }

  lemma RefundedContents(net: Net, w: World, w1: World, s': Store, p: Packet, sender: Address)
    requires ValidNet(net) && ChainsInv(net, w) && p.source in net.peer && p.source.chain in w.chains
    requires SentFrom(net, p.source.chain, w.chains[p.source.chain], s', p, sender)
    requires w1.chains == w.chains[p.source.chain := w.chains[p.source.chain].(nft := s')]
    requires Refunded(net, w1, p).Ok? && Consistent(w.chains[p.source.chain].nft) && Consistent(s')
    ensures SameContents(w.chains[p.source.chain].nft, Refunded(net, w1, p).value.nft)
    ensures Refunded(net, w1, p).value.traces == w.chains[p.source.chain].traces
  {
    RefundedTokens(net, w, w1, s', p, sender);
    RefundedRest(net, w1, p);
    Determined(w.chains[p.source.chain].nft, Refunded(net, w1, p).value.nft);
  }

  lemma RefundUndoes(net: Net, w: World, a: Action) returns (w1: World, p: Packet)
    requires ValidNet(net) && Inv(net, w) && AllConsistent(w) && a.Send? && NextSend(net, w, a) != w
    ensures w1 == NextSend(net, w, a) && p.source == a.src && w.sent in w1.packets && w1.packets[w.sent] == p
    ensures p.status.InFlight?
    ensures a.src.chain in w.chains && a.src.chain in w1.chains && Refunded(net, w1, p).Ok?
    ensures SameContents(w.chains[a.src.chain].nft, Refunded(net, w1, p).value.nft)
    ensures Refunded(net, w1, p).value.traces == w.chains[a.src.chain].traces
  {
    var s';
    s', p := SendShape(net, w, a);
    w1 := NextSend(net, w, a);
    assert Refunded(net, w1, p).Ok? by {
      SendStep(net, w, a);
      assert Live(w1, w.sent) && w1.packets[w.sent] == p;
      RefundSucceeds(net, w1, p);
    }
    assert Consistent(s') by {
      SendStepConsistent(net, w, a);
      assert w1.chains[a.src.chain].nft == s';
    }
    RefundedContents(net, w, w1, s', p, a.sender);
  }

  lemma TimeoutIs(net: Net, w: World, id: nat, p: Packet)
    requires id in w.packets && w.packets[id] == p && p.status.InFlight? && p.source.chain in w.chains
    requires Refunded(net, w, p).Ok?
    ensures Next(net, w, Timeout(id)) ==
      w.(chains := w.chains[p.source.chain := Refunded(net, w, p).value], packets := w.packets - {id})
  {
  }

  /** A timeout straight after the send leaves the sending chain as it was. */
  lemma UndoSend(net: Net, w: World, a: Action) returns (w1: World, w2: World)
    requires ValidNet(net) && Inv(net, w) && AllConsistent(w) && a.Send? && NextSend(net, w, a) != w
    ensures w1 == Next(net, w, a) && w2 == Next(net, w1, Timeout(w.sent)) && w.sent !in w2.packets
    ensures a.src.chain in w.chains && a.src.chain in w2.chains
    ensures SameContents(w.chains[a.src.chain].nft, w2.chains[a.src.chain].nft)
    ensures w2.chains[a.src.chain].traces == w.chains[a.src.chain].traces
  {
    var p;
    w1, p := RefundUndoes(net, w, a);
    w2 := Next(net, w1, Timeout(w.sent));
    TimeoutIs(net, w1, w.sent, p);
  }
}
