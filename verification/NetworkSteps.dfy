/** What an account does on its own chain keeps the network invariant. */
module NetworkSteps {
  import opened Bytes
  import opened ClassTraces
  import opened NftStore
  import opened TransferSpec
  import opened Network

  // ---- local moves ------------------------------------------------------------------------------

  /** A change of one chain that touches no escrowed token and creates no voucher. */
  ghost predicate Local(net: Net, x: nat, s: Store, s': Store) {
    && (forall id :: id in s.denoms ==> id in s'.denoms && s'.denoms[id] == s.denoms[id])
    && (forall id :: id in s'.denoms && id !in s.denoms ==>
          SlashFree(id) && !IsEscrow(net, x, s'.denoms[id].creator))
    && (forall k :: k in s.nfts && IsEscrow(net, x, s.nfts[k].owner) ==>
          k in s'.nfts && s'.nfts[k] == s.nfts[k])
    && (forall k :: k in s'.nfts ==> k.denom in s'.denoms)
    && (forall k :: k in s'.nfts && !SlashFree(k.denom) ==>
          k in s.nfts && s'.nfts[k].name == s.nfts[k].name && s'.nfts[k].data == s.nfts[k].data)
  }

  lemma BackedIsEscrowed(net: Net, w: World, f: End, path: Text, token: Text)
    requires f in net.peer && Backed(net, w, f, path, token)
    ensures var k := Key(ClassId(net.sha, path), token);
            IsEscrow(net, f.chain, w.chains[f.chain].nft.nfts[k].owner)
  {
  }

  lemma LocalDenomOk(net: Net, x: nat, c: Chain, s': Store, id: Text)
    requires ValidNet(net) && ChainOk(net, x, c) && Local(net, x, c.nft, s') && id in s'.denoms
    ensures DenomOk(net, x, c.(nft := s'), id)
  {
    if id in c.nft.denoms {
      assert DenomOk(net, x, c, id);
    } else {
      NativeClassId(net.sha, id);
      HopOfNative(net, x, id);
    }
  }

  lemma CreatorIsEscrow(net: Net, x: nat, c: Chain, id: Text)
    requires DenomOk(net, x, c, id) && HopOf(net, x, ResolvePath(c.traces, id).value).Some?
    ensures IsEscrow(net, x, c.nft.denoms[id].creator)
  {
  }

  /** A user is never the creator of a voucher class. */
  lemma UserClassNative(net: Net, x: nat, c: Chain, id: Text)
    requires ValidNet(net) && ChainOk(net, x, c) && id in c.nft.denoms
    requires !IsEscrow(net, x, c.nft.denoms[id].creator)
    ensures SlashFree(id)
  {
    assert DenomOk(net, x, c, id);
    var path := ResolvePath(c.traces, id).value;
    if HopOf(net, x, path).Some? {
      CreatorIsEscrow(net, x, c, id);
      assert false;
    }
    NativeClassId(net.sha, path);
  }

  lemma MintIsLocal(net: Net, x: nat, s: Store, k: Key, n: Nft)
    requires (forall j :: j in s.nfts ==> j.denom in s.denoms) && SlashFree(k.denom)
    requires MintUnverified(s, k, n).Ok?
    ensures Local(net, x, s, MintUnverified(s, k, n).value)
  {
  }

  lemma EditIsLocal(net: Net, x: nat, s: Store, k: Key, name: Option<Text>, uri: Option<Text>, data: Option<Text>,
                    user: Address)
    requires (forall j :: j in s.nfts ==> j.denom in s.denoms) && SlashFree(k.denom) && !IsEscrow(net, x, user)
    requires Edit(s, k, name, uri, data, user).Ok?
    ensures Local(net, x, s, Edit(s, k, name, uri, data, user).value)
  {
  }

  lemma GiveIsLocal(net: Net, x: nat, s: Store, k: Key, user: Address, to: Address)
    requires (forall j :: j in s.nfts ==> j.denom in s.denoms) && !IsEscrow(net, x, user)
    requires TransferOwner(s, k, user, to).Ok?
    ensures Local(net, x, s, TransferOwner(s, k, user, to).value)
  {
  }

  lemma BurnIsLocal(net: Net, x: nat, s: Store, k: Key, user: Address)
    requires (forall j :: j in s.nfts ==> j.denom in s.denoms) && !IsEscrow(net, x, user)
    requires BurnUnverified(s, k, user).Ok?
    ensures Local(net, x, s, BurnUnverified(s, k, user).value)
  {
  }

  lemma MoveIsLocal(net: Net, x: nat, c: Chain, user: Address, m: Move)
    requires ValidNet(net) && ChainOk(net, x, c) && !IsEscrow(net, x, user)
    requires MoveResult(c.nft, user, m).Ok?
    ensures Local(net, x, c.nft, MoveResult(c.nft, user, m).value)
  {
    match m
    case Issue(_, _, _, _) =>
    case Give(k, to) =>
      GiveIsLocal(net, x, c.nft, k, user, to);
    case MintTo(k, n) =>
      UserClassNative(net, x, c, k.denom);
      MintIsLocal(net, x, c.nft, k, n);
    case EditOwn(k, name, uri, data) =>
      UserClassNative(net, x, c, k.denom);
      EditIsLocal(net, x, c.nft, k, name, uri, data, user);
    case BurnOwn(k) =>
      BurnIsLocal(net, x, c.nft, k, user);
  }

  lemma LocalKeepsBacked(net: Net, w: World, x: nat, s': Store, f: End, path: Text, token: Text)
    requires x in w.chains && Local(net, x, w.chains[x].nft, s')
    requires f in net.peer && Backed(net, w, f, path, token)
    ensures Backed(net, w.(chains := w.chains[x := w.chains[x].(nft := s')]), f, path, token)
  {
    BackedIsEscrowed(net, w, f, path, token);
  }

  lemma VoucherKeyNotNative(net: Net, p: Packet)
    ensures !SlashFree(ClassId(net.sha, SlotPath(net, p)))
  {
    var e := SlotEnd(net, p);
    PrefixedClassId(net.sha, e.port, e.channel, SlotRest(p));
    var id := ClassId(net.sha, SlotPath(net, p));
    assert id[3] == SLASH;
  }

  lemma LocalKeepsSlot(net: Net, w: World, x: nat, s': Store, p: Packet, t: Text)
    requires ValidNet(net) && x in w.chains && Local(net, x, w.chains[x].nft, s') && SlotHeld(net, w, p, t)
    ensures SlotHeld(net, w.(chains := w.chains[x := w.chains[x].(nft := s')]), p, t)
  {
    VoucherKeyNotNative(net, p);
    LocalKeepsBacked(net, w, x, s', net.peer[SlotEnd(net, p)], SlotRest(p), t);
  }

  lemma LocalKeepsPacket(net: Net, w: World, x: nat, s': Store, p: Packet)
    requires ValidNet(net) && x in w.chains && Local(net, x, w.chains[x].nft, s') && PacketOk(net, w, p)
    ensures PacketOk(net, w.(chains := w.chains[x := w.chains[x].(nft := s')]), p)
  {
    var w' := w.(chains := w.chains[x := w.chains[x].(nft := s')]);
    forall t | t in p.data.tokenIds ensures SlotHeld(net, w', p, t) {
      LocalKeepsSlot(net, w, x, s', p, t);
    }
  }

  lemma LocalKeepsToken(net: Net, w: World, x: nat, s': Store, y: nat, k: Key)
    requires ValidNet(net) && Inv(net, w) && x in w.chains && Local(net, x, w.chains[x].nft, s')
    requires var w' := w.(chains := w.chains[x := w.chains[x].(nft := s')]);
             y in w'.chains && k in w'.chains[y].nft.nfts
    ensures TokenBacked(net, w.(chains := w.chains[x := w.chains[x].(nft := s')]), y, k)
  {
    var w' := w.(chains := w.chains[x := w.chains[x].(nft := s')]);
    if SlashFree(k.denom) {
      NativeClassId(net.sha, k.denom);
      HopOfNative(net, y, k.denom);
    } else {
      assert k in w.chains[y].nft.nfts;
      assert TokenBacked(net, w, y, k);
      var r := ResolvePath(w.chains[y].traces, k.denom);
      if r.Ok? && HopOf(net, y, r.value).Some? {
        var e := HopOf(net, y, r.value).value;
        LocalKeepsBacked(net, w, x, s', net.peer[e], Rest(e, r.value), k.token);
      }
    }
  }

  lemma LocalChainOk(net: Net, x: nat, c: Chain, s': Store)
    requires ValidNet(net) && ChainOk(net, x, c) && Local(net, x, c.nft, s')
    ensures ChainOk(net, x, c.(nft := s'))
  {
    forall id | id in s'.denoms ensures DenomOk(net, x, c.(nft := s'), id) {
      LocalDenomOk(net, x, c, s', id);
    }
  }

  lemma LocalKeepsChains(net: Net, w: World, x: nat, s': Store)
    requires ValidNet(net) && ChainsInv(net, w) && x in w.chains && Local(net, x, w.chains[x].nft, s')
    ensures ChainsInv(net, w.(chains := w.chains[x := w.chains[x].(nft := s')]))
  {
    LocalChainOk(net, x, w.chains[x], s');
  }

  lemma LocalKeepsPackets(net: Net, w: World, x: nat, s': Store)
    requires ValidNet(net) && PacketsInv(net, w) && x in w.chains && Local(net, x, w.chains[x].nft, s')
    ensures PacketsInv(net, w.(chains := w.chains[x := w.chains[x].(nft := s')]))
  {
    var w' := w.(chains := w.chains[x := w.chains[x].(nft := s')]);
    forall id | Live(w', id) ensures PacketOk(net, w', w'.packets[id]) {
      assert Live(w, id);
      LocalKeepsPacket(net, w, x, s', w.packets[id]);
    }
    forall i, j | Live(w', i) && Live(w', j) && i != j ensures Apart(net, w'.packets[i], w'.packets[j]) {
      assert Live(w, i) && Live(w, j);
    }
  }

  lemma LocalKeepsInv(net: Net, w: World, x: nat, s': Store)
    requires ValidNet(net) && Inv(net, w) && x in w.chains && Local(net, x, w.chains[x].nft, s')
    ensures Inv(net, w.(chains := w.chains[x := w.chains[x].(nft := s')]))
  {
    var w' := w.(chains := w.chains[x := w.chains[x].(nft := s')]);
    LocalKeepsChains(net, w, x, s');
    LocalKeepsPackets(net, w, x, s');
    forall y, k | y in w'.chains && k in w'.chains[y].nft.nfts ensures TokenBacked(net, w', y, k) {
      LocalKeepsToken(net, w, x, s', y, k);
    }
  }
}
