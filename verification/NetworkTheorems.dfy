/** What holds in every state that any run of the network can reach. */
module NetworkTheorems {
  import opened Bytes
  import opened ClassTraces
  import opened NftStore
  import opened TransferSpec
  import opened Network
  import opened NetworkSteps
  import opened NetworkPackets
  import opened NetworkDelivery
  import opened NetworkHandlers

  // ---- every step keeps the invariant -----------------------------------------------------------------

  lemma InitialInv(net: Net, w: World)
    requires ValidNet(net) && Initial(net, w)
    ensures Inv(net, w)
  {
    forall x, id | x in w.chains && id in w.chains[x].nft.denoms ensures DenomOk(net, x, w.chains[x], id) {
      NativeClassId(net.sha, id);
      HopOfNative(net, x, id);
    }
    forall x, k | x in w.chains && k in w.chains[x].nft.nfts ensures TokenBacked(net, w, x, k) {
      HopOfNative(net, x, k.denom);
      NativeClassId(net.sha, k.denom);
    }
  }

  lemma SameWorld(net: Net, w: World, w': World)
    requires Inv(net, w) && w == w'
    ensures Inv(net, w')
  {
  }

  /** A step that changes the world has created a packet. */
  lemma SendOutcome(net: Net, w: World, a: Action) returns (c': Chain, d: PacketData)
    requires a.Send? && NextSend(net, w, a) != w
    ensures a.src in net.peer && a.src.chain in w.chains && !IsEscrow(net, a.src.chain, a.sender)
    ensures ValidAddress(a.sender)
    ensures CreateOutgoing(net.sha, w.chains[a.src.chain], a.src.port, a.src.channel, a.denom, a.ids, a.sender,
                           net.show(a.src.chain)(a.sender), a.receiver) == Ok((c', d))
    ensures SlotPath(net, Packet(a.src, d, InFlight)) in net.paths
    ensures d.receiver == a.receiver
    ensures NextSend(net, w, a) ==
      World(w.chains[a.src.chain := c'], w.packets[w.sent := Packet(a.src, d, InFlight)], w.sent + 1)
  {
    var x := a.src.chain;
    var r := CreateOutgoing(net.sha, w.chains[x], a.src.port, a.src.channel, a.denom, a.ids, a.sender,
                            net.show(x)(a.sender), a.receiver);
    c', d := r.value.0, r.value.1;
  }

  /** What a send that goes through does, in full. */
  lemma SendShape(net: Net, w: World, a: Action) returns (s': Store, p: Packet)
    requires ValidNet(net) && ChainsInv(net, w) && a.Send? && NextSend(net, w, a) != w
    ensures p.source == a.src && p.status.InFlight? && p.data.tokenIds == a.ids && p.data.receiver == a.receiver
    ensures a.denom == ClassId(net.sha, p.data.classId)
    ensures a.src in net.peer && a.src.chain in w.chains && !IsEscrow(net, a.src.chain, a.sender)
    ensures PathOk(net, a.src.chain, p.data.classId) && SlotPath(net, p) in net.paths
    ensures SentFrom(net, a.src.chain, w.chains[a.src.chain], s', p, a.sender)
    ensures NextSend(net, w, a) == WithPacket(WithChain(w, a.src.chain, w.chains[a.src.chain].(nft := s')), p)
  {
    var c', d := SendOutcome(net, w, a);
    OutgoingSends(net, a.src.chain, w.chains[a.src.chain], a.src, a.denom, a.ids, a.sender, a.receiver);
    s', p := c'.nft, Packet(a.src, d, InFlight);
  }

  lemma SendStep(net: Net, w: World, a: Action)
    requires ValidNet(net) && Inv(net, w) && a.Send?
    ensures Inv(net, NextSend(net, w, a))
  {
    if NextSend(net, w, a) == w {
      SameWorld(net, w, NextSend(net, w, a));
    } else {
      var s', p := SendShape(net, w, a);
      SendKeepsInv(net, w, s', p, a.sender);
    }
  }

  /** Resolving a packet in either way, once the packet is dropped. */
  lemma ResolveStep(net: Net, w: World, w1: World, id: nat, back: bool)
    requires ValidNet(net) && Inv(net, w) && Live(w, id) && Dropped(w, w1, id)
    requires var p := w.packets[id];
             && p.source in net.peer && net.peer[p.source].chain in w.chains
             && (if back then Refunded(net, w, p).Ok? else Received(net, w, p).Ok?)
    ensures var p := w.packets[id];
            if back then Inv(net, WithChain(w1, p.source.chain, Refunded(net, w, p).value))
            else Inv(net, WithChain(w1, net.peer[p.source].chain, Received(net, w, p).value))
  {
    var p := w.packets[id];
    DropKeepsInv(net, w, w1, id);
    SlotHop(net, p);
    if back && Away(p) {
      var to := RefundReleases(net, w1, p);
      ReleaseKeepsInv(net, w1, p, Refunded(net, w1, p).value, to);
    } else if back {
      RefundMints(net, w1, p);
      MintKeepsInv(net, w1, p, Refunded(net, w1, p).value);
    } else if Away(p) {
      ReceiveMints(net, w1, p);
      MintKeepsInv(net, w1, p, Received(net, w1, p).value);
    } else {
      var to := ReceiveReleases(net, w1, p);
      ReleaseKeepsInv(net, w1, p, Received(net, w1, p).value, to);
    }
  }

  lemma MarkDelivered(w: World, id: nat)
    requires Live(w, id)
    ensures Dropped(w, w.(packets := w.packets[id := w.packets[id].(status := SuccessAck)]), id)
  {
  }

  lemma RemovePacket(w: World, id: nat)
    requires Live(w, id)
    ensures Dropped(w, w.(packets := w.packets - {id}), id)
  {
  }

  lemma DeliverStep(net: Net, w: World, id: nat)
    requires ValidNet(net) && Inv(net, w) && Live(w, id)
    requires var p := w.packets[id];
             p.source in net.peer && net.peer[p.source].chain in w.chains && Received(net, w, p).Ok?
    ensures var p := w.packets[id];
            Inv(net, w.(chains := w.chains[net.peer[p.source].chain := Received(net, w, p).value],
                        packets := w.packets[id := p.(status := SuccessAck)]))
  {
    var p := w.packets[id];
    var w1 := w.(packets := w.packets[id := p.(status := SuccessAck)]);
    MarkDelivered(w, id);
    ResolveStep(net, w, w1, id, false);
  }

  lemma ReceiveStep(net: Net, w: World, id: nat)
    requires ValidNet(net) && Inv(net, w)
    ensures Inv(net, NextReceive(net, w, id))
  {
    var w' := NextReceive(net, w, id);
    if w' == w {
      SameWorld(net, w, w');
    } else {
      var p := w.packets[id];
      if Received(net, w, p).Ok? {
        DeliverStep(net, w, id);
        SameWorld(net, w.(chains := w.chains[net.peer[p.source].chain := Received(net, w, p).value],
                          packets := w.packets[id := p.(status := SuccessAck)]), w');
      } else {
        StatusStep(net, w, id, ErrorAck);
        SameWorld(net, w.(packets := w.packets[id := p.(status := ErrorAck)]), w');
      }
    }
  }

  /** A live packet may change status and stay live. */
  lemma StatusStep(net: Net, w: World, id: nat, st: Status)
    requires Inv(net, w) && Live(w, id) && !st.SuccessAck?
    ensures Inv(net, w.(packets := w.packets[id := w.packets[id].(status := st)]))
  {
    var w' := w.(packets := w.packets[id := w.packets[id].(status := st)]);
    SameTokensBacked(net, w, w');
    StatusKeepsPackets(net, w, id, st);
  }

  lemma StatusKeepsPackets(net: Net, w: World, id: nat, st: Status)
    requires PacketsInv(net, w) && Live(w, id) && !st.SuccessAck?
    ensures PacketsInv(net, w.(packets := w.packets[id := w.packets[id].(status := st)]))
  {
    var w' := w.(packets := w.packets[id := w.packets[id].(status := st)]);
    forall j | Live(w', j) ensures PacketOk(net, w', w'.packets[j]) {
      assert Live(w, j);
      StatusIrrelevant(net, w, w', w.packets[j], w'.packets[j]);
    }
    forall i, j | Live(w', i) && Live(w', j) && i != j ensures Apart(net, w'.packets[i], w'.packets[j]) {
      assert Live(w, i) && Live(w, j);
      StatusApart(net, w.packets[i], w.packets[j], w'.packets[i], w'.packets[j]);
    }
  }

  lemma StatusApart(net: Net, p: Packet, q: Packet, p': Packet, q': Packet)
    requires Apart(net, p, q) && p' == p.(status := p'.status) && q' == q.(status := q'.status)
    ensures Apart(net, p', q')
  {
  }

  lemma StatusIrrelevant(net: Net, w: World, w': World, p: Packet, q: Packet)
    requires w'.chains == w.chains && PacketOk(net, w, p) && q == p.(status := q.status)
    ensures PacketOk(net, w', q)
  {
    forall t | t in q.data.tokenIds ensures SlotHeld(net, w', q, t) {
      assert SlotHeld(net, w, p, t);
    }
  }

  lemma RefundStep(net: Net, w: World, id: nat)
    requires ValidNet(net) && Inv(net, w) && Live(w, id)
    ensures Inv(net, NextRefund(net, w, id))
    ensures id !in NextRefund(net, w, id).packets
  {
    var p := w.packets[id];
    RefundSucceeds(net, w, p);
    var w1 := w.(packets := w.packets - {id});
    RemovePacket(w, id);
    ResolveStep(net, w, w1, id, true);
    SameWorld(net, WithChain(w1, p.source.chain, Refunded(net, w, p).value), NextRefund(net, w, id));
  }

  lemma UserStep(net: Net, w: World, x: nat, user: Address, m: Move)
    requires ValidNet(net) && Inv(net, w)
    ensures Inv(net, NextUser(net, w, x, user, m))
  {
    if x in w.chains && !IsEscrow(net, x, user) && MoveResult(w.chains[x].nft, user, m).Ok? {
      MoveIsLocal(net, x, w.chains[x], user, m);
      LocalKeepsInv(net, w, x, MoveResult(w.chains[x].nft, user, m).value);
    } else {
      SameWorld(net, w, NextUser(net, w, x, user, m));
    }
  }

  lemma AcknowledgeStep(net: Net, w: World, id: nat)
    requires ValidNet(net) && Inv(net, w)
    ensures Inv(net, Next(net, w, Acknowledge(id)))
  {
    var w' := Next(net, w, Acknowledge(id));
    if id !in w.packets || w.packets[id].status.InFlight? {
      SameWorld(net, w, w');
    } else if w.packets[id].status.ErrorAck? {
      RefundStep(net, w, id);
      SameWorld(net, NextRefund(net, w, id), w');
    } else {
      ForgetStep(net, w, id);
      SameWorld(net, w.(packets := w.packets - {id}), w');
    }
  }

  lemma TimeoutStep(net: Net, w: World, id: nat)
    requires ValidNet(net) && Inv(net, w)
    ensures Inv(net, Next(net, w, Timeout(id)))
  {
    var w' := Next(net, w, Timeout(id));
    if id in w.packets && w.packets[id].status.InFlight? {
      RefundStep(net, w, id);
      SameWorld(net, NextRefund(net, w, id), w');
    } else {
      SameWorld(net, w, w');
    }
  }

  lemma NextKeepsInv(net: Net, w: World, a: Action)
    requires ValidNet(net) && Inv(net, w)
    ensures Inv(net, Next(net, w, a))
  {
    match a
    case Send(_, _, _, _, _) =>
      SendStep(net, w, a);
    case Receive(id) =>
      ReceiveStep(net, w, id);
    case Timeout(id) =>
      TimeoutStep(net, w, id);
    case Acknowledge(id) =>
      AcknowledgeStep(net, w, id);
    case User(x, user, m) =>
      UserStep(net, w, x, user, m);
  }

  lemma ForgetStep(net: Net, w: World, id: nat)
    requires Inv(net, w) && id in w.packets && !Live(w, id)
    ensures Inv(net, w.(packets := w.packets - {id}))
  {
    var w' := w.(packets := w.packets - {id});
    SameTokensBacked(net, w, w');
    forall j | Live(w', j) ensures PacketOk(net, w', w'.packets[j]) {
      assert Live(w, j);
      SamePacketOk(net, w, w', w.packets[j]);
    }
    forall i, j | Live(w', i) && Live(w', j) && i != j ensures Apart(net, w'.packets[i], w'.packets[j]) {
      assert Live(w, i) && Live(w, j);
    }
  }

  /** The invariant holds after every run from every initial state. */
  lemma {:induction false} RunKeepsInv(net: Net, w: World, run: seq<Action>)
    requires ValidNet(net) && Inv(net, w)
    ensures Inv(net, Run(net, w, run))
    decreases |run|
  {
    if run != [] {
      NextKeepsInv(net, w, run[0]);
      RunKeepsInv(net, Next(net, w, run[0]), run[1..]);
    }
  }
}
