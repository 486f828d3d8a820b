/** Resolving a packet, by minting at its slot or by releasing what backs it, keeps the invariant. */
module NetworkDelivery {
  import opened Bytes
  import opened ClassTraces
  import opened NftStore
  import opened TransferSpec
  import opened Network
  import opened NetworkSteps
  import opened NetworkPackets

  // ---- forgetting the packet -----------------------------------------------------------------------

  /** The same world, in which packet `id` is no longer live. */
  ghost predicate Dropped(w: World, w': World, id: nat) {
    && w'.chains == w.chains && w'.sent == w.sent
    && (forall j :: j in w'.packets ==> j in w.packets)
    && (forall j :: Live(w', j) <==> Live(w, j) && j != id)
    && (forall j :: Live(w', j) ==> w'.packets[j] == w.packets[j])
  }

  lemma DropKeepsInv(net: Net, w: World, w': World, id: nat)
    requires Inv(net, w) && Live(w, id) && Dropped(w, w', id)
    ensures Inv(net, w')
    ensures PacketOk(net, w', w.packets[id])
    ensures ApartFromAll(net, w', w.packets[id])
  {
    SameTokensBacked(net, w, w');
    SamePacketOk(net, w, w', w.packets[id]);
    forall j | Live(w', j) ensures PacketOk(net, w', w'.packets[j]) {
      SamePacketOk(net, w, w', w.packets[j]);
    }
  }

  ghost predicate ApartFromAll(net: Net, w: World, p: Packet) {
    forall id :: Live(w, id) ==> Apart(net, p, w.packets[id])
  }

  // ---- minting at the slot ------------------------------------------------------------------------

  /** Vouchers for the packet's tokens appear at its slot, whose class may be new. */
  ghost predicate Minted(net: Net, p: Packet, c: Chain, c': Chain) {
    var path := SlotPath(net, p);
    var id := ClassId(net.sha, path);
    && ContentAddressed(net, c')
    && (forall h :: h in c.traces ==> h in c'.traces && c'.traces[h] == c.traces[h])
    && net.sha(path) in c'.traces && FullClassPath(c'.traces[net.sha(path)]) == path
    && id in c'.nft.denoms && c'.nft.denoms[id].creator == Escrow(net, SlotEnd(net, p))
    && (forall d :: d in c.nft.denoms ==> d in c'.nft.denoms && c'.nft.denoms[d] == c.nft.denoms[d])
    && (forall d :: d in c'.nft.denoms ==> d in c.nft.denoms || d == id)
    && (forall k :: k in c'.nft.nfts <==> k in c.nft.nfts || (k.denom == id && k.token in p.data.tokenIds))
    && (forall k :: k in c.nft.nfts ==> c'.nft.nfts[k] == c.nft.nfts[k])
    && (forall k :: k in c'.nft.nfts && k !in c.nft.nfts ==>
          c'.nft.nfts[k].name == [] && c'.nft.nfts[k].data == [])
  }

  lemma MintKeepsBacked(net: Net, w: World, p: Packet, c': Chain, f: End, path: Text, t: Text)
    requires var x := SlotEnd(net, p).chain; x in w.chains && Minted(net, p, w.chains[x], c')
    requires Backed(net, w, f, path, t)
    ensures Backed(net, WithChain(w, SlotEnd(net, p).chain, c'), f, path, t)
  {
  }

  lemma MintedDenomOk(net: Net, p: Packet, c: Chain, c': Chain, d: Text)
    requires ValidNet(net) && p.source in net.peer
    requires PathOk(net, p.source.chain, p.data.classId) && SlotPath(net, p) in net.paths
    requires ChainOk(net, SlotEnd(net, p).chain, c) && Minted(net, p, c, c') && d in c'.nft.denoms
    ensures DenomOk(net, SlotEnd(net, p).chain, c', d)
  {
    var e := SlotEnd(net, p);
    var path := SlotPath(net, p);
    SlotHop(net, p);
    SlotPathOk(net, p);
    PrefixedClassId(net.sha, e.port, e.channel, SlotRest(p));
    if d == ClassId(net.sha, path) {
      ResolveStored(net, c'.traces, path);
    } else {
      assert DenomOk(net, e.chain, c, d);
      ResolveStable(c.traces, c'.traces, d);
    }
  }

  lemma MintedChainOk(net: Net, p: Packet, c: Chain, c': Chain)
    requires ValidNet(net) && p.source in net.peer
    requires PathOk(net, p.source.chain, p.data.classId) && SlotPath(net, p) in net.paths
    requires ChainOk(net, SlotEnd(net, p).chain, c) && Minted(net, p, c, c')
    ensures ChainOk(net, SlotEnd(net, p).chain, c')
  {
    forall d | d in c'.nft.denoms ensures DenomOk(net, SlotEnd(net, p).chain, c', d) {
      MintedDenomOk(net, p, c, c', d);
    }
  }

  /** Two packets whose slots share a class on a chain share the slot. */
  lemma SlotOfClass(net: Net, p: Packet, q: Packet)
    requires ValidNet(net) && p.source in net.peer && q.source in net.peer
    requires PathOk(net, p.source.chain, p.data.classId) && SlotPath(net, p) in net.paths
    requires PathOk(net, q.source.chain, q.data.classId) && SlotPath(net, q) in net.paths
    requires SlotEnd(net, p).chain == SlotEnd(net, q).chain
    requires ClassId(net.sha, SlotPath(net, p)) == ClassId(net.sha, SlotPath(net, q))
    ensures SlotEnd(net, p) == SlotEnd(net, q) && SlotRest(p) == SlotRest(q)
  {
    SlotHop(net, p);
    SlotHop(net, q);
    SlotPathOk(net, p);
    SlotPathOk(net, q);
    ClassIdInjective(net, SlotEnd(net, p).chain, SlotPath(net, p), SlotEnd(net, q).chain, SlotPath(net, q));
  }

  lemma MintKeepsSlot(net: Net, w: World, p: Packet, c': Chain, q: Packet, t: Text)
    requires ValidNet(net) && PacketOk(net, w, p) && PacketOk(net, w, q) && Apart(net, p, q)
    requires Minted(net, p, w.chains[SlotEnd(net, p).chain], c') && t in q.data.tokenIds
    ensures SlotHeld(net, WithChain(w, SlotEnd(net, p).chain, c'), q, t)
  {
    assert SlotHeld(net, w, q, t);
    MintKeepsBacked(net, w, p, c', net.peer[SlotEnd(net, q)], SlotRest(q), t);
    if SlotEnd(net, p).chain == SlotEnd(net, q).chain
       && ClassId(net.sha, SlotPath(net, p)) == ClassId(net.sha, SlotPath(net, q)) {
      SlotOfClass(net, p, q);
    }
  }

  lemma MintKeepsPacket(net: Net, w: World, p: Packet, c': Chain, q: Packet)
    requires ValidNet(net) && PacketOk(net, w, p) && PacketOk(net, w, q) && Apart(net, p, q)
    requires Minted(net, p, w.chains[SlotEnd(net, p).chain], c')
    ensures PacketOk(net, WithChain(w, SlotEnd(net, p).chain, c'), q)
  {
    var x := SlotEnd(net, p).chain;
    forall t | t in q.data.tokenIds ensures SlotHeld(net, WithChain(w, x, c'), q, t) {
      MintKeepsSlot(net, w, p, c', q, t);
    }
    ResolveStable(w.chains[q.source.chain].traces, WithChain(w, x, c').chains[q.source.chain].traces,
                  ClassId(net.sha, q.data.classId));
  }

  lemma MintKeepsToken(net: Net, w: World, p: Packet, c': Chain, y: nat, k: Key)
    requires ValidNet(net) && Inv(net, w) && PacketOk(net, w, p)
    requires Minted(net, p, w.chains[SlotEnd(net, p).chain], c')
    requires var w' := WithChain(w, SlotEnd(net, p).chain, c'); y in w'.chains && k in w'.chains[y].nft.nfts
    ensures TokenBacked(net, WithChain(w, SlotEnd(net, p).chain, c'), y, k)
  {
    var x := SlotEnd(net, p).chain;
    var w' := WithChain(w, x, c');
    if k in w.chains[y].nft.nfts {
      assert TokenBacked(net, w, y, k);
      assert DenomOk(net, y, w.chains[y], k.denom);
      ResolveStable(w.chains[y].traces, w'.chains[y].traces, k.denom);
      var path := ResolvePath(w.chains[y].traces, k.denom).value;
      if HopOf(net, y, path).Some? {
        var e := HopOf(net, y, path).value;
        MintKeepsBacked(net, w, p, c', net.peer[e], Rest(e, path), k.token);
      }
    } else {
      NewTokenBacked(net, w, p, c', k);
    }
  }

  lemma NewTokenBacked(net: Net, w: World, p: Packet, c': Chain, k: Key)
    requires ValidNet(net) && PacketOk(net, w, p) && Minted(net, p, w.chains[SlotEnd(net, p).chain], c')
    requires k.denom == ClassId(net.sha, SlotPath(net, p)) && k.token in p.data.tokenIds
    ensures TokenBacked(net, WithChain(w, SlotEnd(net, p).chain, c'), SlotEnd(net, p).chain, k)
  {
    var e := SlotEnd(net, p);
    SlotHop(net, p);
    PrefixedClassId(net.sha, e.port, e.channel, SlotRest(p));
    ResolveStored(net, c'.traces, SlotPath(net, p));
    assert SlotHeld(net, w, p, k.token);
    MintKeepsBacked(net, w, p, c', net.peer[e], SlotRest(p), k.token);
  }

  lemma MintKeepsPackets(net: Net, w: World, p: Packet, c': Chain)
    requires ValidNet(net) && PacketsInv(net, w) && PacketOk(net, w, p) && ApartFromAll(net, w, p)
    requires Minted(net, p, w.chains[SlotEnd(net, p).chain], c')
    ensures PacketsInv(net, WithChain(w, SlotEnd(net, p).chain, c'))
  {
    var w' := WithChain(w, SlotEnd(net, p).chain, c');
    forall id | Live(w', id) ensures PacketOk(net, w', w'.packets[id]) {
      assert Live(w, id);
      MintKeepsPacket(net, w, p, c', w.packets[id]);
    }
    forall i, j | Live(w', i) && Live(w', j) && i != j ensures Apart(net, w'.packets[i], w'.packets[j]) {
      assert Live(w, i) && Live(w, j);
    }
  }

  lemma MintKeepsTokens(net: Net, w: World, p: Packet, c': Chain)
    requires ValidNet(net) && Inv(net, w) && PacketOk(net, w, p)
    requires Minted(net, p, w.chains[SlotEnd(net, p).chain], c')
    ensures BackingInv(net, WithChain(w, SlotEnd(net, p).chain, c'))
  {
    var w' := WithChain(w, SlotEnd(net, p).chain, c');
    forall y, k | y in w'.chains && k in w'.chains[y].nft.nfts ensures TokenBacked(net, w', y, k) {
      MintKeepsToken(net, w, p, c', y, k);
    }
  }

  lemma OneChainKeepsChains(net: Net, w: World, x: nat, c': Chain)
    requires ChainsInv(net, w) && x in w.chains && ChainOk(net, x, c')
    ensures ChainsInv(net, WithChain(w, x, c'))
  {
  }

  lemma MintKeepsInv(net: Net, w: World, p: Packet, c': Chain)
    requires ValidNet(net) && Inv(net, w) && PacketOk(net, w, p) && ApartFromAll(net, w, p)
    requires Minted(net, p, w.chains[SlotEnd(net, p).chain], c')
    ensures Inv(net, WithChain(w, SlotEnd(net, p).chain, c'))
  {
    MintedChainOk(net, p, w.chains[SlotEnd(net, p).chain], c');
    OneChainKeepsChains(net, w, SlotEnd(net, p).chain, c');
    MintKeepsPackets(net, w, p, c');
    MintKeepsTokens(net, w, p, c');
  }

  // ---- releasing what backs the slot -----------------------------------------------------------------

  /** The packet's tokens leave the escrow account of the slot's other end. */
  ghost predicate Released(net: Net, p: Packet, c: Chain, c': Chain, to: Address) {
    && c' == c.(nft := c'.nft)
    && Moved(c.nft, c'.nft, ClassId(net.sha, SlotRest(p)), p.data.tokenIds, to)
  }

  function OtherEnd(net: Net, p: Packet): End {
    var e := SlotEnd(net, p);
    if e in net.peer then net.peer[e] else e
  }

  /** A token in escrow backs one slot. */
  lemma SameBacking(net: Net, w: World, f: End, s: Text, g: End, t: Text, token: Text)
    requires ValidNet(net) && f in net.peer && g in net.peer && f.chain == g.chain
    requires PathOk(net, f.chain, s) && PathOk(net, g.chain, t)
    requires ClassId(net.sha, s) == ClassId(net.sha, t)
    requires Backed(net, w, f, s, token) && Backed(net, w, g, t, token)
    ensures f == g && s == t
  {
    ClassIdInjective(net, f.chain, s, g.chain, t);
    if f != g {
      EscrowsDiffer(net, f, g);
    }
  }

  /** Releasing one packet's tokens leaves every other slot backed. */
  lemma ReleaseKeepsBacked(net: Net, w: World, p: Packet, c': Chain, to: Address, e: End, rest: Text, t: Text)
    requires ValidNet(net) && PacketOk(net, w, p)
    requires OtherEnd(net, p).chain in w.chains && Released(net, p, w.chains[OtherEnd(net, p).chain], c', to)
    requires e in net.peer && PathOk(net, net.peer[e].chain, rest) && Backed(net, w, net.peer[e], rest, t)
    requires !(e == SlotEnd(net, p) && rest == SlotRest(p) && t in p.data.tokenIds)
    ensures Backed(net, WithChain(w, OtherEnd(net, p).chain, c'), net.peer[e], rest, t)
  {
    var f := net.peer[e];
    var g := OtherEnd(net, p);
    SlotHop(net, p);
    SlotPathOk(net, p);
    assert t in p.data.tokenIds ==> SlotHeld(net, w, p, t);
    if f.chain == g.chain && ClassId(net.sha, rest) == ClassId(net.sha, SlotRest(p)) && t in p.data.tokenIds {
      SameBacking(net, w, f, rest, g, SlotRest(p), t);
    }
  }

  lemma ReleaseKeepsPacket(net: Net, w: World, p: Packet, c': Chain, to: Address, q: Packet)
    requires ValidNet(net) && PacketOk(net, w, p) && PacketOk(net, w, q) && Apart(net, p, q)
    requires OtherEnd(net, p).chain in w.chains && Released(net, p, w.chains[OtherEnd(net, p).chain], c', to)
    ensures PacketOk(net, WithChain(w, OtherEnd(net, p).chain, c'), q)
  {
    var w' := WithChain(w, OtherEnd(net, p).chain, c');
    SlotHop(net, q);
    SlotPathOk(net, q);
    forall t | t in q.data.tokenIds ensures SlotHeld(net, w', q, t) {
      assert SlotHeld(net, w, q, t);
      ReleaseKeepsBacked(net, w, p, c', to, SlotEnd(net, q), SlotRest(q), t);
    }
  }

  lemma ReleaseKeepsVoucher(net: Net, w: World, p: Packet, c': Chain, to: Address, k: Key, e: End, rest: Text)
    requires ValidNet(net) && PacketOk(net, w, p)
    requires OtherEnd(net, p).chain in w.chains && Released(net, p, w.chains[OtherEnd(net, p).chain], c', to)
    requires e in net.peer && e.chain in w.chains && k in w.chains[e.chain].nft.nfts
    requires k.denom == ClassId(net.sha, Prefix(e) + rest) && PathOk(net, net.peer[e].chain, rest)
    requires Backed(net, w, net.peer[e], rest, k.token)
    ensures Backed(net, WithChain(w, OtherEnd(net, p).chain, c'), net.peer[e], rest, k.token)
  {
    TokenNotAtSlot(net, w, p, e.chain, k, e, rest);
    ReleaseKeepsBacked(net, w, p, c', to, e, rest, k.token);
  }

  /** What the invariant says of one token. */
  ghost predicate VoucherParts(net: Net, w: World, y: nat, k: Key)
    requires y in w.chains
  {
    var r := ResolvePath(w.chains[y].traces, k.denom);
    && r.Ok?
    && (HopOf(net, y, r.value).Some? ==>
          var e := HopOf(net, y, r.value).value;
          && k.denom == ClassId(net.sha, Prefix(e) + Rest(e, r.value))
          && PathOk(net, net.peer[e].chain, Rest(e, r.value))
          && Backed(net, w, net.peer[e], Rest(e, r.value), k.token))
  }

  lemma ReleaseKeepsToken(net: Net, w: World, p: Packet, c': Chain, to: Address, y: nat, k: Key)
    requires ValidNet(net) && PacketOk(net, w, p)
    requires OtherEnd(net, p).chain in w.chains && Released(net, p, w.chains[OtherEnd(net, p).chain], c', to)
    requires y in w.chains && k in w.chains[y].nft.nfts && VoucherParts(net, w, y, k)
    ensures TokenBacked(net, WithChain(w, OtherEnd(net, p).chain, c'), y, k)
  {
    var path := ResolvePath(w.chains[y].traces, k.denom).value;
    if HopOf(net, y, path).Some? {
      var e := HopOf(net, y, path).value;
      ReleaseKeepsVoucher(net, w, p, c', to, k, e, Rest(e, path));
    }
  }

  /** The parts of a voucher: its last hop, and the token that backs it. */
  lemma VoucherOf(net: Net, w: World, y: nat, k: Key)
    requires ValidNet(net) && Inv(net, w) && y in w.chains && k in w.chains[y].nft.nfts
    ensures VoucherParts(net, w, y, k)
  {
    assert TokenBacked(net, w, y, k) && DenomOk(net, y, w.chains[y], k.denom);
    var path := ResolvePath(w.chains[y].traces, k.denom).value;
    if HopOf(net, y, path).Some? {
      HopOfNativeContra(net, y, path);
      var _, _ := VoucherPath(net, y, path);
    }
  }

  /** A token does not sit in a packet's slot. */
  lemma TokenNotAtSlot(net: Net, w: World, p: Packet, y: nat, k: Key, e: End, rest: Text)
    requires PacketOk(net, w, p) && y in w.chains && k in w.chains[y].nft.nfts
    requires e.chain == y && k.denom == ClassId(net.sha, Prefix(e) + rest)
    ensures !(e == SlotEnd(net, p) && rest == SlotRest(p) && k.token in p.data.tokenIds)
  {
    assert k == Key(k.denom, k.token);
    assert k.token in p.data.tokenIds ==> SlotHeld(net, w, p, k.token);
  }

  lemma ReleasedChainOk(net: Net, x: nat, p: Packet, c: Chain, c': Chain, to: Address)
    requires ChainOk(net, x, c) && Released(net, p, c, c', to)
    ensures ChainOk(net, x, c')
  {
    forall d | d in c'.nft.denoms ensures DenomOk(net, x, c', d) {
      assert DenomOk(net, x, c, d);
    }
  }

  lemma ReleaseKeepsPackets(net: Net, w: World, p: Packet, c': Chain, to: Address)
    requires ValidNet(net) && PacketsInv(net, w) && PacketOk(net, w, p) && ApartFromAll(net, w, p)
    requires OtherEnd(net, p).chain in w.chains && Released(net, p, w.chains[OtherEnd(net, p).chain], c', to)
    ensures PacketsInv(net, WithChain(w, OtherEnd(net, p).chain, c'))
  {
    var w' := WithChain(w, OtherEnd(net, p).chain, c');
    forall id | Live(w', id) ensures PacketOk(net, w', w'.packets[id]) {
      assert Live(w, id);
      ReleaseKeepsPacket(net, w, p, c', to, w.packets[id]);
    }
    forall i, j | Live(w', i) && Live(w', j) && i != j ensures Apart(net, w'.packets[i], w'.packets[j]) {
      assert Live(w, i) && Live(w, j);
    }
  }

  lemma ReleaseKeepsKeys(net: Net, w: World, p: Packet, c': Chain, to: Address, y: nat, k: Key)
    requires OtherEnd(net, p).chain in w.chains && Released(net, p, w.chains[OtherEnd(net, p).chain], c', to)
    requires y in WithChain(w, OtherEnd(net, p).chain, c').chains
    requires k in WithChain(w, OtherEnd(net, p).chain, c').chains[y].nft.nfts
    ensures y in w.chains && k in w.chains[y].nft.nfts
  {
  }

  lemma ReleaseKeepsTokens(net: Net, w: World, p: Packet, c': Chain, to: Address)
    requires ValidNet(net) && Inv(net, w) && PacketOk(net, w, p)
    requires OtherEnd(net, p).chain in w.chains && Released(net, p, w.chains[OtherEnd(net, p).chain], c', to)
    ensures BackingInv(net, WithChain(w, OtherEnd(net, p).chain, c'))
  {
    var w' := WithChain(w, OtherEnd(net, p).chain, c');
    forall y, k | y in w'.chains && k in w'.chains[y].nft.nfts ensures TokenBacked(net, w', y, k) {
      ReleaseKeepsKeys(net, w, p, c', to, y, k);
      VoucherOf(net, w, y, k);
      ReleaseKeepsToken(net, w, p, c', to, y, k);
    }
  }

  lemma ReleaseKeepsInv(net: Net, w: World, p: Packet, c': Chain, to: Address)
    requires ValidNet(net) && Inv(net, w) && PacketOk(net, w, p) && ApartFromAll(net, w, p)
    requires OtherEnd(net, p).chain in w.chains && Released(net, p, w.chains[OtherEnd(net, p).chain], c', to)
    ensures Inv(net, WithChain(w, OtherEnd(net, p).chain, c'))
  {
    var x := OtherEnd(net, p).chain;
    ReleasedChainOk(net, x, p, w.chains[x], c', to);
    OneChainKeepsChains(net, w, x, c');
    ReleaseKeepsPackets(net, w, p, c', to);
    ReleaseKeepsTokens(net, w, p, c', to);
  }
}
