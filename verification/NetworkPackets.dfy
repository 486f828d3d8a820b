/** Sending a packet keeps the network invariant. */
module NetworkPackets {
  import opened Bytes
  import opened ClassTraces
  import opened NftStore
  import opened TransferSpec
  import opened Network
  import opened NetworkSteps

  function WithChain(w: World, x: nat, c: Chain): World {
    w.(chains := w.chains[x := c])
  }

  function WithPacket(w: World, p: Packet): World {
    w.(packets := w.packets[w.sent := p], sent := w.sent + 1)
  }

  // ---- sending ----------------------------------------------------------------------------------

  lemma MovedIsLocal(net: Net, x: nat, s: Store, s': Store, denom: Text, ids: seq<Text>, user: Address, to: Address)
    requires (forall j :: j in s.nfts ==> j.denom in s.denoms) && !IsEscrow(net, x, user)
    requires AllOwned(s, denom, ids, user) && Moved(s, s', denom, ids, to)
    ensures Local(net, x, s, s')
  {
    forall k | k in s.nfts && IsEscrow(net, x, s.nfts[k].owner) ensures s'.nfts[k] == s.nfts[k] {
      assert k == Key(k.denom, k.token);
    }
  }

  lemma RemovedIsLocal(net: Net, x: nat, s: Store, s': Store, denom: Text, ids: seq<Text>, user: Address)
    requires (forall j :: j in s.nfts ==> j.denom in s.denoms) && !IsEscrow(net, x, user)
    requires AllOwned(s, denom, ids, user) && Removed(s, s', denom, ids)
    ensures Local(net, x, s, s')
  {
    forall k | k in s.nfts && IsEscrow(net, x, s.nfts[k].owner) ensures k in s'.nfts {
      assert k == Key(k.denom, k.token);
    }
  }

  lemma AddPacketKeepsPackets(net: Net, w: World, p: Packet)
    requires PacketsInv(net, w) && PacketOk(net, w, p)
    requires forall id :: Live(w, id) ==> Apart(net, p, w.packets[id])
    ensures PacketsInv(net, WithPacket(w, p))
  {
    var w' := WithPacket(w, p);
    forall id | Live(w', id) ensures PacketOk(net, w', w'.packets[id]) {
      assert id != w.sent ==> Live(w, id);
      SamePacketOk(net, w, w', w'.packets[id]);
    }
    forall i, j | Live(w', i) && Live(w', j) && i != j ensures Apart(net, w'.packets[i], w'.packets[j]) {
      assert i != w.sent ==> Live(w, i);
      assert j != w.sent ==> Live(w, j);
    }
  }

  lemma AddPacketKeepsInv(net: Net, w: World, p: Packet)
    requires Inv(net, w) && PacketOk(net, w, p)
    requires forall id :: Live(w, id) ==> Apart(net, p, w.packets[id])
    ensures Inv(net, WithPacket(w, p))
  {
    var w' := WithPacket(w, p);
    AddPacketKeepsPackets(net, w, p);
    SameTokensBacked(net, w, w');
  }

  lemma SameTokensBacked(net: Net, w: World, w': World)
    requires w'.chains == w.chains && BackingInv(net, w)
    ensures BackingInv(net, w')
  {
    forall x, k | x in w'.chains && k in w'.chains[x].nft.nfts ensures TokenBacked(net, w', x, k) {
      assert TokenBacked(net, w, x, k);
    }
  }

  lemma SamePacketOk(net: Net, w: World, w': World, p: Packet)
    requires w'.chains == w.chains && PacketOk(net, w, p)
    ensures PacketOk(net, w', p)
  {
    forall t | t in p.data.tokenIds ensures SlotHeld(net, w', p, t) {
      assert SlotHeld(net, w, p, t);
    }
  }

  /** While a user holds the token that a packet is about to stand for, its slot is empty. */
  lemma SlotFree(net: Net, w: World, p: Packet, t: Text)
    requires ValidNet(net) && Inv(net, w) && p.source in net.peer
    requires PathOk(net, p.source.chain, p.data.classId) && SlotPath(net, p) in net.paths
    requires var k := Key(ClassId(net.sha, p.data.classId), t);
             var s := w.chains[p.source.chain].nft;
             k in s.nfts && !IsEscrow(net, p.source.chain, s.nfts[k].owner)
    ensures Away(p) ==> Key(ClassId(net.sha, SlotPath(net, p)), t) !in w.chains[SlotEnd(net, p).chain].nft.nfts
    ensures Away(p) ==> !Backed(net, w, p.source, SlotRest(p), t)
    ensures forall q :: PacketOk(net, w, q) && SlotEnd(net, q) == SlotEnd(net, p) && SlotRest(q) == SlotRest(p) ==>
              t !in q.data.tokenIds
  {
    SlotHop(net, p);
    SlotPathOk(net, p);
    var e := SlotEnd(net, p);
    var k := Key(ClassId(net.sha, SlotPath(net, p)), t);
    if Away(p) {
      assert !Backed(net, w, p.source, SlotRest(p), t) by {
        if Backed(net, w, p.source, SlotRest(p), t) {
          BackedIsEscrowed(net, w, p.source, SlotRest(p), t);
        }
      }
      if k in w.chains[e.chain].nft.nfts {
        VoucherIsBacked(net, w, e.chain, k, SlotPath(net, p));
      }
    }
    forall q | PacketOk(net, w, q) && SlotEnd(net, q) == e && SlotRest(q) == SlotRest(p)
      ensures t !in q.data.tokenIds
    {
      assert t in q.data.tokenIds ==> SlotHeld(net, w, q, t);
    }
  }

  /** The backing of a token, found from the path of its class. */
  lemma VoucherIsBacked(net: Net, w: World, x: nat, k: Key, path: Text)
    requires ValidNet(net) && Inv(net, w) && x in w.chains && k in w.chains[x].nft.nfts
    requires PathOk(net, x, path) && k.denom == ClassId(net.sha, path) && HopOf(net, x, path).Some?
    ensures ResolvePath(w.chains[x].traces, k.denom) == Ok(path)
    ensures var e := HopOf(net, x, path).value; Backed(net, w, net.peer[e], Rest(e, path), k.token)
  {
    var c := w.chains[x];
    assert DenomOk(net, x, c, k.denom);
    ClassIdInjective(net, x, ResolvePath(c.traces, k.denom).value, x, path);
    assert TokenBacked(net, w, x, k);
  }

  /** What a successful send does to the sending chain. */
  ghost predicate SentFrom(net: Net, x: nat, c: Chain, s': Store, p: Packet, sender: Address) {
    var id := ClassId(net.sha, p.data.classId);
    && id in c.nft.denoms
    && ResolvePath(c.traces, id) == Ok(p.data.classId)
    && Taken(c.nft, s', id, p.data.tokenIds, Away(p), Escrow(net, p.source))
    && Distinct(p.data.tokenIds)
    && AllOwned(c.nft, id, p.data.tokenIds, sender)
    && UrisOf(c.nft, id, p.data.tokenIds, p.data.tokenUris)
    && ValidAddress(sender) && p.data.sender == net.show(x)(sender)
    && p.data.classUri == c.nft.denoms[id].uri
  }

  lemma OutgoingSends(net: Net, x: nat, c: Chain, src: End, denom: Text, ids: seq<Text>, sender: Address, receiver: Text)
    requires ValidNet(net) && ChainOk(net, x, c) && src in net.peer && src.chain == x
    requires !IsEscrow(net, x, sender) && ValidAddress(sender)
    requires CreateOutgoing(net.sha, c, src.port, src.channel, denom, ids, sender, net.show(x)(sender), receiver).Ok?
    ensures var (c', d) := CreateOutgoing(net.sha, c, src.port, src.channel, denom, ids, sender,
                                          net.show(x)(sender), receiver).value;
            && c' == c.(nft := c'.nft)
            && SentFrom(net, x, c, c'.nft, Packet(src, d, InFlight), sender)
            && PathOk(net, x, d.classId)
            && denom == ClassId(net.sha, d.classId) && d.tokenIds == ids
  {
    assert DenomOk(net, x, c, denom);
    var path := ResolvePath(c.traces, denom).value;
    TakeAllTakes(c.nft, denom, ids, sender, IsAwayFromOrigin(src.port, src.channel, path), Escrow(net, src), []);
    var (_, uris) := TakeAll(c.nft, denom, ids, sender, IsAwayFromOrigin(src.port, src.channel, path),
                             Escrow(net, src), []).value;
    assert uris[0..] == uris;
  }

  lemma SentIsLocal(net: Net, x: nat, c: Chain, s': Store, p: Packet, sender: Address)
    requires ChainOk(net, x, c) && SentFrom(net, x, c, s', p, sender) && !IsEscrow(net, x, sender)
    ensures Local(net, x, c.nft, s')
  {
    var id := ClassId(net.sha, p.data.classId);
    if Away(p) {
      MovedIsLocal(net, x, c.nft, s', id, p.data.tokenIds, sender, Escrow(net, p.source));
    } else {
      RemovedIsLocal(net, x, c.nft, s', id, p.data.tokenIds, sender);
    }
  }

  lemma EscrowedIsHeld(net: Net, w: World, s': Store, p: Packet, t: Text)
    requires ValidNet(net) && p.source in net.peer && Away(p) && t in p.data.tokenIds
    requires p.source.chain in w.chains && SlotEnd(net, p).chain in w.chains
    requires Local(net, p.source.chain, w.chains[p.source.chain].nft, s')
    requires var id := ClassId(net.sha, p.data.classId);
             Key(id, t) in s'.nfts && s'.nfts[Key(id, t)].owner == Escrow(net, p.source)
    requires Key(ClassId(net.sha, SlotPath(net, p)), t) !in w.chains[SlotEnd(net, p).chain].nft.nfts
    ensures var x := p.source.chain; SlotHeld(net, WithChain(w, x, w.chains[x].(nft := s')), p, t)
  {
    SlotHop(net, p);
    VoucherKeyNotNative(net, p);
  }

  lemma BurnedIsHeld(net: Net, w: World, s': Store, p: Packet, t: Text)
    requires ValidNet(net) && p.source in net.peer && !Away(p) && t in p.data.tokenIds
    requires p.source.chain in w.chains
    requires Local(net, p.source.chain, w.chains[p.source.chain].nft, s')
    requires Backed(net, w, net.peer[p.source], SlotRest(p), t)
    requires Key(ClassId(net.sha, p.data.classId), t) !in s'.nfts
    ensures var x := p.source.chain; SlotHeld(net, WithChain(w, x, w.chains[x].(nft := s')), p, t)
  {
    SlotHop(net, p);
    LocalKeepsBacked(net, w, p.source.chain, s', net.peer[p.source], SlotRest(p), t);
  }

  /** After a send, the packet's tokens are held in its slot. */
  lemma SentIsHeld(net: Net, w: World, s': Store, p: Packet, sender: Address, t: Text)
    requires ValidNet(net) && Inv(net, w) && p.source in net.peer && !IsEscrow(net, p.source.chain, sender)
    requires PathOk(net, p.source.chain, p.data.classId) && SlotPath(net, p) in net.paths
    requires SentFrom(net, p.source.chain, w.chains[p.source.chain], s', p, sender)
    requires t in p.data.tokenIds
    ensures var x := p.source.chain; SlotHeld(net, WithChain(w, x, w.chains[x].(nft := s')), p, t)
  {
    var x := p.source.chain;
    var c := w.chains[x];
    var k := Key(ClassId(net.sha, p.data.classId), t);
    assert k in c.nft.nfts && c.nft.nfts[k].owner == sender;
    SentIsLocal(net, x, c, s', p, sender);
    SlotHop(net, p);
    if Away(p) {
      SlotFree(net, w, p, t);
      EscrowedIsHeld(net, w, s', p, t);
    } else {
      VoucherIsBacked(net, w, x, k, p.data.classId);
      BurnedIsHeld(net, w, s', p, t);
    }
  }

  lemma SentPacketOk(net: Net, w: World, s': Store, p: Packet, sender: Address)
    requires ValidNet(net) && Inv(net, w) && p.source in net.peer && !IsEscrow(net, p.source.chain, sender)
    requires PathOk(net, p.source.chain, p.data.classId) && SlotPath(net, p) in net.paths
    requires SentFrom(net, p.source.chain, w.chains[p.source.chain], s', p, sender)
    ensures var x := p.source.chain; PacketOk(net, WithChain(w, x, w.chains[x].(nft := s')), p)
  {
    var x := p.source.chain;
    var w1 := WithChain(w, x, w.chains[x].(nft := s'));
    SlotHop(net, p);
    forall t | t in p.data.tokenIds ensures SlotHeld(net, w1, p, t) {
      SentIsHeld(net, w, s', p, sender, t);
    }
  }

  lemma SentKeepsRest(net: Net, w: World, s': Store, p: Packet, sender: Address)
    requires ValidNet(net) && Inv(net, w) && p.source in net.peer && !IsEscrow(net, p.source.chain, sender)
    requires SentFrom(net, p.source.chain, w.chains[p.source.chain], s', p, sender)
    ensures var x := p.source.chain; Inv(net, WithChain(w, x, w.chains[x].(nft := s')))
  {
    var x := p.source.chain;
    SentIsLocal(net, x, w.chains[x], s', p, sender);
    LocalKeepsInv(net, w, x, s');
  }

  lemma SentAllApart(net: Net, w: World, p: Packet, sender: Address)
    requires ValidNet(net) && Inv(net, w) && p.source in net.peer && !IsEscrow(net, p.source.chain, sender)
    requires PathOk(net, p.source.chain, p.data.classId) && SlotPath(net, p) in net.paths
    requires AllOwned(w.chains[p.source.chain].nft, ClassId(net.sha, p.data.classId), p.data.tokenIds, sender)
    ensures forall id :: Live(w, id) ==> Apart(net, p, w.packets[id])
  {
    forall id | Live(w, id) ensures Apart(net, p, w.packets[id]) {
      SentApart(net, w, p, w.packets[id], sender);
    }
  }

  lemma SendKeepsInv(net: Net, w: World, s': Store, p: Packet, sender: Address)
    requires ValidNet(net) && Inv(net, w) && p.source in net.peer && !IsEscrow(net, p.source.chain, sender)
    requires PathOk(net, p.source.chain, p.data.classId) && SlotPath(net, p) in net.paths
    requires SentFrom(net, p.source.chain, w.chains[p.source.chain], s', p, sender)
    ensures var x := p.source.chain;
            Inv(net, WithPacket(WithChain(w, x, w.chains[x].(nft := s')), p))
  {
    SentKeepsRest(net, w, s', p, sender);
    SentPacketOk(net, w, s', p, sender);
    SentAllApart(net, w, p, sender);
    var w1 := WithChain(w, p.source.chain, w.chains[p.source.chain].(nft := s'));
    assert forall id :: Live(w1, id) <==> Live(w, id);
    AddPacketKeepsInv(net, w1, p);
  }

  lemma SentApart(net: Net, w: World, p: Packet, q: Packet, sender: Address)
    requires ValidNet(net) && Inv(net, w) && p.source in net.peer && !IsEscrow(net, p.source.chain, sender)
    requires PathOk(net, p.source.chain, p.data.classId) && SlotPath(net, p) in net.paths
    requires AllOwned(w.chains[p.source.chain].nft, ClassId(net.sha, p.data.classId), p.data.tokenIds, sender)
    requires PacketOk(net, w, q)
    ensures Apart(net, p, q)
  {
    forall t | t in p.data.tokenIds && SlotEnd(net, p) == SlotEnd(net, q) && SlotRest(p) == SlotRest(q)
      ensures t !in q.data.tokenIds
    {
      SlotFree(net, w, p, t);
    }
  }
}
