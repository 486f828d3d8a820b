/** What no step undoes: classes stay as they were issued, names stay taken, and everything that appears has an
    admissible key. */
module Growth {
  import opened Bytes
  import opened ClassTraces
  import opened NftStore
  import opened Keys
  import opened TransferSpec
  import opened Network
  import opened NetworkPackets
  import opened NetworkHandlers
  import opened NetworkTheorems

  /** Issued by a message, or for vouchers, which are named by their id. */
  predicate NewClass(d: Denom) {
    ValidId(d.id) || (VoucherId(d.id) && d.name == d.id)
  }

  ghost predicate Grows(s: Store, s': Store) {
    && (forall id :: id in s.denoms ==> id in s'.denoms && s'.denoms[id] == s.denoms[id])
    && (forall name :: name in s.names ==> name in s'.names)
    && (forall id :: id in s'.denoms && id !in s.denoms ==>
          s'.denoms[id].id == id && NewClass(s'.denoms[id]) && s'.denoms[id].name !in s.names)
    && (forall k :: k in s'.nfts && k !in s.nfts ==> Admissible(k))
    && (forall k :: k in s'.nfts ==> Presentable(k, s'.nfts[k]) || (k in s.nfts && KeepsForm(s.nfts[k], s'.nfts[k])))
  }

  /** A token has an owner, and a native one a URI of bounded length. */
  predicate Presentable(k: Key, n: Nft) {
    n.owner != [] && (ValidId(k.denom) ==> |n.uri| <= MAX_TOKEN_URI_LEN)
  }

  /** The URI is the same or of bounded length, and the owner is the same or an address. */
  predicate KeepsForm(n: Nft, n': Nft) {
    (n'.uri == n.uri || |n'.uri| <= MAX_TOKEN_URI_LEN) && (n'.owner == n.owner || n'.owner != [])
  }

  lemma FormsTransitive(s: Store, s1: Store, s2: Store, k: Key)
    requires Grows(s, s1) && Grows(s1, s2) && k in s2.nfts
    ensures Presentable(k, s2.nfts[k]) || (k in s.nfts && KeepsForm(s.nfts[k], s2.nfts[k]))
  {
    if !Presentable(k, s2.nfts[k]) && !Presentable(k, s1.nfts[k]) {
      assert KeepsForm(s.nfts[k], s1.nfts[k]) && KeepsForm(s1.nfts[k], s2.nfts[k]);
    }
  }

  lemma GrowsTransitive(s: Store, s1: Store, s2: Store)
    requires Grows(s, s1) && Grows(s1, s2)
    ensures Grows(s, s2)
  {
    forall k | k in s2.nfts
      ensures Presentable(k, s2.nfts[k]) || (k in s.nfts && KeepsForm(s.nfts[k], s2.nfts[k]))
    {
      FormsTransitive(s, s1, s2, k);
    }
  }

  lemma VoucherIdOf(sha: Text -> Digest, port: Text, channel: Text, rest: Text)
    ensures VoucherId(ClassId(sha, ClassPrefix(port, channel) + rest))
  {
    PrefixedClassId(sha, port, channel, rest);
    var h := HexEncode(sha(ClassPrefix(port, channel) + rest));
    HexRoundTrip(sha(ClassPrefix(port, channel) + rest));
    assert (IBC_PREFIX + h)[|IBC_PREFIX|..] == h;
  }

  lemma MovedGrows(s: Store, s': Store, denom: Text, ids: seq<Text>, to: Address)
    requires Moved(s, s', denom, ids, to) && to != []
    ensures Grows(s, s')
  {
  }

  lemma RemovedGrows(s: Store, s': Store, denom: Text, ids: seq<Text>)
    requires Removed(s, s', denom, ids)
    ensures Grows(s, s')
  {
  }

  lemma TakenGrows(s: Store, s': Store, denom: Text, ids: seq<Text>, away: bool, escrow: Address)
    requires Taken(s, s', denom, ids, away, escrow) && |escrow| == 20
    ensures Grows(s, s')
  {
    if away {
      MovedGrows(s, s', denom, ids, escrow);
    } else {
      RemovedGrows(s, s', denom, ids);
    }
  }

  lemma AddedGrows(s: Store, s': Store, denom: Text, ids: seq<Text>, uris: seq<Text>, owner: Address)
    requires Added(s, s', denom, ids, uris, owner) && VoucherId(denom) && owner != []
    ensures Grows(s, s')
  {
    assert denom[3] == SLASH && SLASH in denom;
    assert !ValidId(denom);
    forall k | k in s'.nfts && k !in s.nfts
      ensures Presentable(k, s'.nfts[k])
    {
      var i :| 0 <= i < |ids| && ids[i] == k.token;
      assert k == Key(denom, ids[i]);
    }
  }

  lemma WithClassGrows(s: Store, id: Text, uri: Text, creator: Address)
    requires VoucherId(id) && WithClass(s, id, uri, creator).Ok?
    ensures Grows(s, WithClass(s, id, uri, creator).value)
  {
  }

  // ---- the handlers -----------------------------------------------------------------------------------

  lemma ReceiveGrows(sha: Text -> Digest, read: Text -> Option<Address>, c: Chain,
                     srcPort: Text, srcChannel: Text, dstPort: Text, dstChannel: Text, d: PacketData)
    requires OnRecv(sha, read, c, srcPort, srcChannel, dstPort, dstChannel, d).Ok?
    requires forall t :: read(t).Some? ==> ValidAddress(read(t).value)
    ensures Grows(c.nft, OnRecv(sha, read, c, srcPort, srcChannel, dstPort, dstChannel, d).value.nft)
  {
    var s' := OnRecv(sha, read, c, srcPort, srcChannel, dstPort, dstChannel, d).value.nft;
    var escrow, to := EscrowAddress(sha, dstPort, dstChannel), read(d.receiver).value;
    if IsAwayFromOrigin(srcPort, srcChannel, d.classId) {
      var id := ClassId(sha, ClassPrefix(dstPort, dstChannel) + d.classId);
      VoucherIdOf(sha, dstPort, dstChannel, d.classId);
      WithClassGrows(c.nft, id, d.classUri, escrow);
      var s := WithClass(c.nft, id, d.classUri, escrow).value;
      MintAllAdds(s, id, d.tokenIds, d.tokenUris, escrow, to);
      AddedGrows(s, s', id, d.tokenIds, d.tokenUris, to);
      GrowsTransitive(c.nft, s, s');
    } else {
      var id := ClassId(sha, RemoveClassPrefix(srcPort, srcChannel, d.classId));
      TransferAllMoves(c.nft, id, d.tokenIds, escrow, to);
      MovedGrows(c.nft, s', id, d.tokenIds, to);
    }
  }

  lemma RefundGrows(sha: Text -> Digest, read: Text -> Option<Address>, c: Chain, port: Text, channel: Text, d: PacketData)
    requires Refund(sha, read, c, port, channel, d).Ok?
    requires forall t :: read(t).Some? ==> ValidAddress(read(t).value)
    ensures Grows(c.nft, Refund(sha, read, c, port, channel, d).value.nft)
  {
    var s' := Refund(sha, read, c, port, channel, d).value.nft;
    var id, escrow, to := ClassId(sha, d.classId), EscrowAddress(sha, port, channel), read(d.sender).value;
    if IsAwayFromOrigin(port, channel, d.classId) {
      TransferAllMoves(c.nft, id, d.tokenIds, escrow, to);
      MovedGrows(c.nft, s', id, d.tokenIds, to);
    } else {
      var rest := RemoveClassPrefix(port, channel, d.classId);
      assert d.classId == ClassPrefix(port, channel) + rest;
      VoucherIdOf(sha, port, channel, rest);
      MintAllAdds(c.nft, id, d.tokenIds, d.tokenUris, escrow, to);
      AddedGrows(c.nft, s', id, d.tokenIds, d.tokenUris, to);
    }
  }

  lemma IssueGrows(s: Store, d: Denom)
    requires SetDenom(s, d).Ok? && ValidId(d.id)
    ensures Grows(s, SetDenom(s, d).value)
  {
  }

  lemma MintGrows(s: Store, k: Key, n: Nft, user: Address)
    requires Mint(s, k, n, user).Ok? && Admissible(k) && Presentable(k, n)
    ensures Grows(s, Mint(s, k, n, user).value)
  {
  }

  lemma EditGrows(s: Store, k: Key, name: Option<Text>, uri: Option<Text>, data: Option<Text>, user: Address)
    requires Edit(s, k, name, uri, data, user).Ok? && (uri.Some? ==> |uri.value| <= MAX_TOKEN_URI_LEN)
    ensures Grows(s, Edit(s, k, name, uri, data, user).value)
  {
  }

  lemma GiveGrows(s: Store, k: Key, user: Address, to: Address)
    requires TransferOwner(s, k, user, to).Ok? && to != []
    ensures Grows(s, TransferOwner(s, k, user, to).value)
  {
  }

  lemma BurnGrows(s: Store, k: Key, user: Address)
    requires Burn(s, k, user).Ok?
    ensures Grows(s, Burn(s, k, user).value)
  {
  }

  lemma UserGrows(s: Store, user: Address, m: Move)
    requires MoveResult(s, user, m).Ok?
    ensures Grows(s, MoveResult(s, user, m).value)
  {
    match m
    case Issue(id, name, schema, uri) =>
      IssueGrows(s, Denom(id, name, schema, uri, user));
    case MintTo(k, n) =>
      MintGrows(s, k, n, user);
    case EditOwn(k, name, uri, data) =>
      EditGrows(s, k, name, uri, data, user);
    case Give(k, to) =>
      GiveGrows(s, k, user, to);
    case BurnOwn(k) =>
      BurnGrows(s, k, user);
  }

  // ---- every step, every run ------------------------------------------------------------------------------

  ghost predicate WorldGrows(w: World, w': World) {
    forall x :: x in w.chains ==> x in w'.chains && Grows(w.chains[x].nft, w'.chains[x].nft)
  }

  lemma OneChainGrows(w: World, w': World, x: nat, c: Chain)
    requires x in w.chains && w'.chains == w.chains[x := c] && Grows(w.chains[x].nft, c.nft)
    ensures WorldGrows(w, w')
  {
  }

  lemma SendGrows(net: Net, w: World, a: Action)
    requires ValidNet(net) && Inv(net, w) && a.Send?
    ensures WorldGrows(w, NextSend(net, w, a))
  {
    if NextSend(net, w, a) != w {
      var s', p := SendShape(net, w, a);
      var x := a.src.chain;
      TakenGrows(w.chains[x].nft, s', ClassId(net.sha, p.data.classId), p.data.tokenIds, Away(p), Escrow(net, p.source));
      OneChainGrows(w, NextSend(net, w, a), x, w.chains[x].(nft := s'));
    }
  }

  lemma DeliveryGrows(net: Net, w: World, id: nat)
    requires ValidNet(net)
    ensures WorldGrows(w, NextReceive(net, w, id))
  {
    var w' := NextReceive(net, w, id);
    if w'.chains != w.chains {
      var p := w.packets[id];
      var dst := net.peer[p.source];
      ReceiveGrows(net.sha, net.read(dst.chain), w.chains[dst.chain],
                   p.source.port, p.source.channel, dst.port, dst.channel, p.data);
      OneChainGrows(w, w', dst.chain, Received(net, w, p).value);
    }
  }

  lemma ReturnGrows(net: Net, w: World, id: nat)
    requires ValidNet(net) && id in w.packets
    ensures WorldGrows(w, NextRefund(net, w, id))
  {
    var w' := NextRefund(net, w, id);
    if w'.chains != w.chains {
      var p := w.packets[id];
      var x := p.source.chain;
      RefundGrows(net.sha, net.read(x), w.chains[x], p.source.port, p.source.channel, p.data);
      OneChainGrows(w, w', x, Refunded(net, w, p).value);
    }
  }

  lemma UserStepGrows(net: Net, w: World, x: nat, user: Address, m: Move)
    ensures WorldGrows(w, NextUser(net, w, x, user, m))
  {
    var w' := NextUser(net, w, x, user, m);
    if w'.chains != w.chains {
      var s' := MoveResult(w.chains[x].nft, user, m).value;
      UserGrows(w.chains[x].nft, user, m);
      OneChainGrows(w, w', x, w.chains[x].(nft := s'));
    }
  }

  lemma SameChainsGrow(w: World, w': World)
    requires w'.chains == w.chains
    ensures WorldGrows(w, w')
  {
  }

  lemma AcknowledgeGrows(net: Net, w: World, id: nat)
    requires ValidNet(net)
    ensures WorldGrows(w, Next(net, w, Acknowledge(id)))
  {
    var w' := Next(net, w, Acknowledge(id));
    if id in w.packets && w.packets[id].status.ErrorAck? {
      ReturnGrows(net, w, id);
      assert w' == NextRefund(net, w, id);
    } else {
      SameChainsGrow(w, w');
    }
  }

  lemma TimeoutGrows(net: Net, w: World, id: nat)
    requires ValidNet(net)
    ensures WorldGrows(w, Next(net, w, Timeout(id)))
  {
    var w' := Next(net, w, Timeout(id));
    if id in w.packets && w.packets[id].status.InFlight? {
      ReturnGrows(net, w, id);
      assert w' == NextRefund(net, w, id);
    } else {
      SameChainsGrow(w, w');
    }
  }

  lemma NextGrows(net: Net, w: World, a: Action)
    requires ValidNet(net) && Inv(net, w)
    ensures WorldGrows(w, Next(net, w, a))
  {
    match a
    case Send(_, _, _, _, _) =>
      SendGrows(net, w, a);
    case Receive(id) =>
      DeliveryGrows(net, w, id);
    case Acknowledge(id) =>
      AcknowledgeGrows(net, w, id);
    case Timeout(id) =>
      TimeoutGrows(net, w, id);
    case User(x, user, m) =>
      UserStepGrows(net, w, x, user, m);
  }

  lemma WorldGrowsTransitive(w: World, w1: World, w2: World)
    requires WorldGrows(w, w1) && WorldGrows(w1, w2)
    ensures WorldGrows(w, w2)
  {
    forall x | x in w.chains
      ensures Grows(w.chains[x].nft, w2.chains[x].nft)
    {
      GrowsTransitive(w.chains[x].nft, w1.chains[x].nft, w2.chains[x].nft);
    }
  }

  /** Over every run: no class is changed or removed, no name is given up, and what is new is admissible. */
  lemma {:induction false} RunGrows(net: Net, w: World, run: seq<Action>)
    requires ValidNet(net) && Inv(net, w)
    ensures WorldGrows(w, Run(net, w, run))
    decreases |run|
  {
    if run != [] {
      var w1 := Next(net, w, run[0]);
      NextKeepsInv(net, w, run[0]);
      NextGrows(net, w, run[0]);
      RunGrows(net, w1, run[1..]);
      WorldGrowsTransitive(w, w1, Run(net, w, run));
    }
  }

  // ---- names that are taken -------------------------------------------------------------------------------------

  /** The id of a voucher class, taken as the name of another class before the voucher class was issued. */
  ghost predicate NameTaken(s: Store, id: Text) {
    VoucherId(id) && id in s.names && id !in s.denoms
  }

  lemma TakenStays(s: Store, s': Store, id: Text)
    requires Grows(s, s') && NameTaken(s, id)
    ensures NameTaken(s', id)
  {
    assert id[3] == SLASH && SLASH in id;
    assert !ValidId(id);
  }

  /** Once its id is taken as a name, a voucher class is never issued, and every outward packet of the class is
      answered with an error, after every run. */
  lemma TakenForEver(net: Net, w: World, run: seq<Action>, x: nat, path: Text)
    requires ValidNet(net) && Inv(net, w) && x in w.chains && NameTaken(w.chains[x].nft, ClassId(net.sha, path))
    ensures
      var w' := Run(net, w, run);
      && Inv(net, w') && x in w'.chains && NameTaken(w'.chains[x].nft, ClassId(net.sha, path))
      && forall j :: InFlightTo(net, w', j, x, path) ==> Refused(net, w', j)
  {
    RunKeepsInv(net, w, run);
    RunGrows(net, w, run);
    var w' := Run(net, w, run);
    TakenStays(w.chains[x].nft, w'.chains[x].nft, ClassId(net.sha, path));
    forall j | InFlightTo(net, w', j, x, path)
      ensures Refused(net, w', j)
    {
      RefusedIfNameTaken(net, w', j, x, path);
    }
  }

  /** An outward packet that would become vouchers of the class with this path on chain x. */
  ghost predicate InFlightTo(net: Net, w: World, j: nat, x: nat, path: Text) {
    && j in w.packets && w.packets[j].status.InFlight? && Away(w.packets[j])
    && SlotEnd(net, w.packets[j]).chain == x && SlotPath(net, w.packets[j]) == path
  }

  ghost predicate Refused(net: Net, w: World, j: nat) {
    && j in w.packets
    && Next(net, w, Receive(j)) == w.(packets := w.packets[j := w.packets[j].(status := ErrorAck)])
  }

  lemma RefusedIfNameTaken(net: Net, w: World, j: nat, x: nat, path: Text)
    requires ValidNet(net) && Inv(net, w) && x in w.chains && NameTaken(w.chains[x].nft, ClassId(net.sha, path))
    requires InFlightTo(net, w, j, x, path)
    ensures Refused(net, w, j)
  {
    assert Live(w, j);
    OutwardReceiveSucceeds(net, w, w.packets[j]);
  }
}
