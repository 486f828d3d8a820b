/** Any number of chains joined by channels, the packets between them, and the steps they take. */
module Network {
  import opened Bytes
  import opened ClassTraces
  import opened NftStore
  import opened TransferSpec
  import opened Keys

  // "nft"
  const PORT_ID: Text := [0x6E, 0x66, 0x74]

  /** One end of a channel. */
  datatype End = End(chain: nat, port: Text, channel: Text)

  /** What stays fixed over a run: the channels, SHA-256, and how chains write addresses.
      `paths` holds the class paths among which SHA-256 has no collision. */
  datatype Net = Net(
    peer: map<End, End>,
    sha: Text -> Digest,
    paths: iset<Text>,
    show: nat -> Address -> Text,
    read: nat -> Text -> Option<Address>)

  function Prefix(e: End): Text {
    ClassPrefix(e.port, e.channel)
  }

  function Escrow(net: Net, e: End): Address {
    EscrowAddress(net.sha, e.port, e.channel)
  }

  function Preimage(e: End): Text {
    EscrowPreimage(e.port, e.channel)
  }

  /** The length of an account address. */
  predicate ValidAddress(a: Address) {
    0 < |a| <= 255
  }

  ghost predicate ValidNet(net: Net) {
    && (forall e :: e in net.peer ==>
          && net.peer[e] in net.peer
          && net.peer[net.peer[e]] == e
          && SlashFree(e.port) && SlashFree(e.channel))
    && (forall d, e :: d in net.peer && e in net.peer && d.chain == e.chain && Escrow(net, d) == Escrow(net, e)
          ==> Preimage(d) == Preimage(e))
    && (forall s, t :: s in net.paths && t in net.paths && net.sha(s) == net.sha(t) ==> s == t)
    && (forall x, a :: ValidAddress(a) ==> net.read(x)(net.show(x)(a)) == Some(a))
    && (forall x, t :: net.read(x)(t).Some? ==> ValidAddress(net.read(x)(t).value))
  }

  /** The channel ends of a chain have different escrow accounts. */
  lemma EscrowsDiffer(net: Net, d: End, e: End)
    requires ValidNet(net) && d in net.peer && e in net.peer && d.chain == e.chain && d != e
    ensures Escrow(net, d) != Escrow(net, e)
  {
    if Preimage(d) == Preimage(e) {
      PreimageUnique(d.port, d.channel, e.port, e.channel);
    }
  }

  /** Escrow accounts have no key, so nobody signs for them. */
  ghost predicate IsEscrow(net: Net, x: nat, a: Address) {
    exists e :: e in net.peer && e.chain == x && Escrow(net, e) == a
  }

  // ---- the geometry of class paths -------------------------------------------------------------

  /** The channel end through which a class with this path reached the chain. */
  ghost function HopOf(net: Net, x: nat, path: Text): (h: Option<End>)
    ensures h.Some? ==> h.value in net.peer && h.value.chain == x && HasPrefix(path, Prefix(h.value))
  {
    if exists e :: e in net.peer && e.chain == x && HasPrefix(path, Prefix(e)) then
      var e :| e in net.peer && e.chain == x && HasPrefix(path, Prefix(e));
      Some(e)
    else None
  }

  function Rest(e: End, path: Text): Text {
    if HasPrefix(path, Prefix(e)) then path[|Prefix(e)|..] else path
  }

  /** A native class, or one whose hops follow the channels back to a native class. */
  ghost predicate PathOk(net: Net, x: nat, path: Text)
    decreases |path|
  {
    SlashFree(path) ||
    (&& path in net.paths
     && HopOf(net, x, path).Some?
     && var e := HopOf(net, x, path).value;
        PathOk(net, net.peer[e].chain, Rest(e, path)))
  }

  // ---- the world --------------------------------------------------------------------------------

  datatype Status = InFlight | ErrorAck | SuccessAck

  datatype Packet = Packet(source: End, data: PacketData, status: Status)

  datatype World = World(chains: map<nat, Chain>, packets: map<nat, Packet>, sent: nat)

  predicate Away(p: Packet) {
    IsAwayFromOrigin(p.source.port, p.source.channel, p.data.classId)
  }

  /** The end where the packet's tokens are, or were, or will be vouchers. */
  function SlotEnd(net: Net, p: Packet): End {
    if !Away(p) || p.source !in net.peer then p.source else net.peer[p.source]
  }

  /** The path of the class that those vouchers stand for, at the other end. */
  function SlotRest(p: Packet): Text {
    if Away(p) then p.data.classId else Rest(p.source, p.data.classId)
  }

  function SlotPath(net: Net, p: Packet): Text {
    Prefix(SlotEnd(net, p)) + SlotRest(p)
  }

  /** What the NFT module lets an account do on its own chain. */
  datatype Move =
    | Issue(id: Text, name: Text, schema: Text, uri: Text)
    | MintTo(key: Key, nft: Nft)
    | EditOwn(key: Key, newName: Option<Text>, newUri: Option<Text>, newData: Option<Text>)
    | Give(key: Key, to: Address)
    | BurnOwn(key: Key)

  datatype Action =
    | Send(src: End, denom: Text, ids: seq<Text>, sender: Address, receiver: Text)
    | Receive(id: nat)
    | Acknowledge(id: nat)
    | Timeout(id: nat)
    | User(chain: nat, user: Address, move: Move)

  /** The run is cut where a class path would leave `paths`, as nothing is then known of its hash. */
  ghost function NextSend(net: Net, w: World, a: Action): World
    requires a.Send?
  {
    var x := a.src.chain;
    if a.src !in net.peer || a.src.port != PORT_ID || x !in w.chains then w
    else if IsEscrow(net, x, a.sender) || !ValidAddress(a.sender) then w
    else
      match CreateOutgoing(net.sha, w.chains[x], a.src.port, a.src.channel, a.denom, a.ids,
                           a.sender, net.show(x)(a.sender), a.receiver)
      case Err(_) => w
      case Ok((c, d)) =>
        var p := Packet(a.src, d, InFlight);
        if SlotPath(net, p) !in net.paths then w
        else World(w.chains[x := c], w.packets[w.sent := p], w.sent + 1)
  }

  /** A failed receive leaves the chain as it was and answers with an error acknowledgement. */
  ghost function NextReceive(net: Net, w: World, id: nat): World {
    if id !in w.packets || !w.packets[id].status.InFlight? || w.packets[id].source !in net.peer then w
    else
      var p := w.packets[id];
      var dst := net.peer[p.source];
      if dst.chain !in w.chains then w
      else
        match OnRecv(net.sha, net.read(dst.chain), w.chains[dst.chain],
                     p.source.port, p.source.channel, dst.port, dst.channel, p.data)
        case Ok(c) =>
          w.(chains := w.chains[dst.chain := c], packets := w.packets[id := p.(status := SuccessAck)])
        case Err(_) =>
          w.(packets := w.packets[id := p.(status := ErrorAck)])
  }

  function NextRefund(net: Net, w: World, id: nat): World
    requires id in w.packets
  {
    var p := w.packets[id];
    var x := p.source.chain;
    if x !in w.chains then w
    else
      match Refund(net.sha, net.read(x), w.chains[x], p.source.port, p.source.channel, p.data)
      case Ok(c) => w.(chains := w.chains[x := c], packets := w.packets - {id})
      case Err(_) => w
  }

  /** Messages issue only classes, and mint only tokens, with valid ids; URIs are bounded and recipients are addresses. */
  function MoveResult(s: Store, user: Address, m: Move): Result<Store, Error> {
    match m
    case Issue(id, name, schema, uri) =>
      if !ValidId(id) || Blank(name) then Err(InvalidDenom)
      else SetDenom(s, Denom(id, name, schema, uri, user))
    case MintTo(k, n) =>
      if !ValidAddress(n.owner) then Err(InvalidAddress)
      else if !ValidId(k.denom) || |n.uri| > MAX_TOKEN_URI_LEN || !ValidId(k.token) then Err(InvalidTokenId)
      else Mint(s, k, n, user)
    case EditOwn(k, name, uri, data) =>
      if uri.Some? && |uri.value| > MAX_TOKEN_URI_LEN then Err(InvalidTokenId)
      else Edit(s, k, name, uri, data, user)
    case Give(k, to) =>
      if !ValidAddress(to) then Err(InvalidAddress)
      else TransferOwner(s, k, user, to)
    case BurnOwn(k) => Burn(s, k, user)
  }

  /** When an account's message goes through, told from the message and the store. */
  lemma MoveSucceeds(s: Store, user: Address, m: Move)
    ensures MoveResult(s, user, m).Ok? <==>
      match m
      case Issue(id, name, _, _) => ValidId(id) && !Blank(name) && id !in s.denoms && name !in s.names
      case MintTo(k, n) =>
        && ValidAddress(n.owner) && ValidId(k.denom) && ValidId(k.token) && |n.uri| <= 256
        && k.denom in s.denoms && s.denoms[k.denom].creator == user && k !in s.nfts
      case EditOwn(k, _, uri, _) =>
        && (uri.Some? ==> |uri.value| <= 256)
        && k.denom in s.denoms && s.denoms[k.denom].creator == user && k in s.nfts && s.nfts[k].owner == user
      case Give(k, to) => ValidAddress(to) && k.denom in s.denoms && k in s.nfts && s.nfts[k].owner == user
      case BurnOwn(k) =>
        k.denom in s.denoms && s.denoms[k.denom].creator == user && k in s.nfts && s.nfts[k].owner == user
  {
  }

  ghost function NextUser(net: Net, w: World, x: nat, user: Address, m: Move): World {
    if x !in w.chains || IsEscrow(net, x, user) then w
    else
      match MoveResult(w.chains[x].nft, user, m)
      case Err(_) => w
      case Ok(s) => w.(chains := w.chains[x := w.chains[x].(nft := s)])
  }

  ghost function Next(net: Net, w: World, a: Action): World {
    match a
    case Send(_, _, _, _, _) => NextSend(net, w, a)
    case Receive(id) => NextReceive(net, w, id)
    case Acknowledge(id) =>
      if id !in w.packets then w
      else
        (match w.packets[id].status
         case InFlight => w
         case SuccessAck => w.(packets := w.packets - {id})
         case ErrorAck => NextRefund(net, w, id))
    case Timeout(id) =>
      if id in w.packets && w.packets[id].status.InFlight? then NextRefund(net, w, id) else w
    case User(x, user, m) => NextUser(net, w, x, user, m)
  }

  ghost function Run(net: Net, w: World, run: seq<Action>): World
    decreases |run|
  {
    if run == [] then w else Run(net, Next(net, w, run[0]), run[1..])
  }

  // ---- the invariant --------------------------------------------------------------------------------

  /** Neither delivered nor refunded yet. */
  predicate Live(w: World, id: nat) {
    id in w.packets && !w.packets[id].status.SuccessAck?
  }

  /** The token is held by the escrow account of channel end `f`. */
  ghost predicate Backed(net: Net, w: World, f: End, path: Text, token: Text) {
    && f.chain in w.chains
    && var k := Key(ClassId(net.sha, path), token);
       k in w.chains[f.chain].nft.nfts && w.chains[f.chain].nft.nfts[k].owner == Escrow(net, f)
  }

  /** The class resolves to a path that encodes back to it, and the right account created it. */
  ghost predicate DenomOk(net: Net, x: nat, c: Chain, id: Text) {
    && id in c.nft.denoms
    && ResolvePath(c.traces, id).Ok?
    && var path := ResolvePath(c.traces, id).value;
       && PathOk(net, x, path)
       && ClassId(net.sha, path) == id
       && (HopOf(net, x, path).None? ==> !IsEscrow(net, x, c.nft.denoms[id].creator))
       && (HopOf(net, x, path).Some? ==> c.nft.denoms[id].creator == Escrow(net, HopOf(net, x, path).value))
  }

  ghost predicate ContentAddressed(net: Net, c: Chain) {
    forall h :: h in c.traces ==>
      net.sha(FullClassPath(c.traces[h])) == h && FullClassPath(c.traces[h]) in net.paths
  }

  ghost predicate ChainOk(net: Net, x: nat, c: Chain) {
    && ContentAddressed(net, c)
    && (forall id :: id in c.nft.denoms ==> DenomOk(net, x, c, id))
    && (forall k :: k in c.nft.nfts ==> k.denom in c.nft.denoms)
    && (forall k :: k in c.nft.nfts && !SlashFree(k.denom) ==>
          c.nft.nfts[k].name == [] && c.nft.nfts[k].data == [])
  }

  /** A voucher is backed by the token it stands for, in escrow at the other end of its last hop. */
  ghost predicate TokenBacked(net: Net, w: World, x: nat, k: Key)
    requires x in w.chains
  {
    var r := ResolvePath(w.chains[x].traces, k.denom);
    r.Ok? && HopOf(net, x, r.value).Some? ==>
      var e := HopOf(net, x, r.value).value;
      e in net.peer && Backed(net, w, net.peer[e], Rest(e, r.value), k.token)
  }

  ghost predicate PacketOk(net: Net, w: World, p: Packet) {
    && p.source in net.peer
    && p.source.chain in w.chains
    && PathOk(net, p.source.chain, p.data.classId)
    && ResolvePath(w.chains[p.source.chain].traces, ClassId(net.sha, p.data.classId)) == Ok(p.data.classId)
    && ClassId(net.sha, p.data.classId) in w.chains[p.source.chain].nft.denoms
    && Distinct(p.data.tokenIds)
    && |p.data.tokenUris| == |p.data.tokenIds|
    && (exists a :: ValidAddress(a) && p.data.sender == net.show(p.source.chain)(a))
    && SlotEnd(net, p).chain in w.chains
    && SlotPath(net, p) in net.paths
    && (forall t :: t in p.data.tokenIds ==> SlotHeld(net, w, p, t))
  }

  /** The packet's token is backed like a voucher, and no voucher exists in its place. */
  ghost predicate SlotHeld(net: Net, w: World, p: Packet, t: Text) {
    && SlotEnd(net, p) in net.peer
    && Backed(net, w, net.peer[SlotEnd(net, p)], SlotRest(p), t)
    && SlotEnd(net, p).chain in w.chains
    && Key(ClassId(net.sha, SlotPath(net, p)), t) !in w.chains[SlotEnd(net, p).chain].nft.nfts
  }

  /** No two live packets stand for the same token. */
  ghost predicate Apart(net: Net, p: Packet, q: Packet) {
    SlotEnd(net, p) == SlotEnd(net, q) && SlotRest(p) == SlotRest(q) ==>
      forall t :: t in p.data.tokenIds ==> t !in q.data.tokenIds
  }

  ghost predicate ChainsInv(net: Net, w: World) {
    && (forall e :: e in net.peer ==> e.chain in w.chains)
    && (forall x :: x in w.chains ==> ChainOk(net, x, w.chains[x]))
  }

  ghost predicate BackingInv(net: Net, w: World) {
    forall x, k :: x in w.chains && k in w.chains[x].nft.nfts ==> TokenBacked(net, w, x, k)
  }

  ghost predicate PacketsInv(net: Net, w: World) {
    && (forall id :: id in w.packets ==> id < w.sent)
    && (forall id :: Live(w, id) ==> PacketOk(net, w, w.packets[id]))
    && (forall i, j :: Live(w, i) && Live(w, j) && i != j ==> Apart(net, w.packets[i], w.packets[j]))
  }

  ghost predicate Inv(net: Net, w: World) {
    ChainsInv(net, w) && BackingInv(net, w) && PacketsInv(net, w)
  }

  /** Before any transfer: only native classes, created by accounts that have a key. */
  ghost predicate Initial(net: Net, w: World) {
    && w.packets == map[]
    && (forall e :: e in net.peer ==> e.chain in w.chains)
    && (forall x :: x in w.chains ==>
          && w.chains[x].traces == map[]
          && (forall id :: id in w.chains[x].nft.denoms ==>
                SlashFree(id) && !IsEscrow(net, x, w.chains[x].nft.denoms[id].creator))
          && (forall k :: k in w.chains[x].nft.nfts ==> k.denom in w.chains[x].nft.denoms))
  }

  // ---- facts about paths -------------------------------------------------------------------------------

  lemma HopUnique(net: Net, e: End, path: Text)
    requires ValidNet(net) && e in net.peer && HasPrefix(path, Prefix(e))
    ensures HopOf(net, e.chain, path) == Some(e)
  {
    var h := HopOf(net, e.chain, path);
    PrefixUnique(e.port, e.channel, h.value.port, h.value.channel, path);
  }

  lemma HopOfNative(net: Net, x: nat, path: Text)
    requires SlashFree(path)
    ensures HopOf(net, x, path).None?
  {
    forall e | e in net.peer && e.chain == x ensures !HasPrefix(path, Prefix(e)) {
      assert Prefix(e)[|e.port|] == SLASH;
    }
  }

  /** What a good path that is not native looks like. */
  lemma VoucherPath(net: Net, x: nat, path: Text) returns (e: End, rest: Text)
    requires ValidNet(net) && PathOk(net, x, path) && !SlashFree(path)
    ensures HopOf(net, x, path) == Some(e) && rest == Rest(e, path)
    ensures path == Prefix(e) + rest && path in net.paths
    ensures PathOk(net, net.peer[e].chain, rest)
    ensures ClassId(net.sha, path) == IBC_PREFIX + HexEncode(net.sha(path))
    ensures FullClassPath(ParseClassTrace(path)) == path
  {
    e := HopOf(net, x, path).value;
    rest := Rest(e, path);
    RestOf(e, path);
    PrefixedClassId(net.sha, e.port, e.channel, rest);
  }

  lemma RestOf(e: End, path: Text)
    requires HasPrefix(path, Prefix(e))
    ensures path == Prefix(e) + Rest(e, path)
  {
  }

  /** Among good paths, class identifiers do not clash. */
  lemma ClassIdInjective(net: Net, x: nat, s: Text, y: nat, t: Text)
    requires ValidNet(net) && PathOk(net, x, s) && PathOk(net, y, t)
    requires ClassId(net.sha, s) == ClassId(net.sha, t)
    ensures s == t
  {
    if SlashFree(s) {
      NativeClassId(net.sha, s);
      if !SlashFree(t) {
        var _, _ := VoucherPath(net, y, t);
        assert false;
      } else {
        NativeClassId(net.sha, t);
      }
    } else if SlashFree(t) {
      NativeClassId(net.sha, t);
      var _, _ := VoucherPath(net, x, s);
      assert false;
    } else {
      var _, _ := VoucherPath(net, x, s);
      var _, _ := VoucherPath(net, y, t);
      HexRoundTrip(net.sha(s));
      HexRoundTrip(net.sha(t));
      var h, h' := HexEncode(net.sha(s)), HexEncode(net.sha(t));
      assert h == (IBC_PREFIX + h)[|IBC_PREFIX|..];
      assert h' == (IBC_PREFIX + h')[|IBC_PREFIX|..];
    }
  }

  /** A stored trace is found again from the class identifier of its path. */
  lemma ResolveStored(net: Net, traces: map<Text, ClassTrace>, path: Text)
    requires net.sha(path) in traces && FullClassPath(traces[net.sha(path)]) == path
    requires ClassId(net.sha, path) == IBC_PREFIX + HexEncode(net.sha(path))
    ensures ResolvePath(traces, ClassId(net.sha, path)) == Ok(path)
  {
    var id := ClassId(net.sha, path);
    HexRoundTrip(net.sha(path));
    assert id[|IBC_PREFIX|..] == HexEncode(net.sha(path));
    assert HasPrefix(id, IBC_PREFIX);
  }

  /** Adding traces does not change how known classes resolve. */
  lemma ResolveStable(traces: map<Text, ClassTrace>, traces': map<Text, ClassTrace>, id: Text)
    requires ResolvePath(traces, id).Ok?
    requires forall h :: h in traces ==> h in traces' && traces'[h] == traces[h]
    ensures ResolvePath(traces', id) == ResolvePath(traces, id)
  {
  }

  /** The slot's path has the slot's end as its last hop. */
  lemma SlotHop(net: Net, p: Packet)
    requires ValidNet(net) && p.source in net.peer
    ensures SlotEnd(net, p) in net.peer
    ensures Away(p) ==> net.peer[SlotEnd(net, p)] == p.source
    ensures !Away(p) ==> SlotPath(net, p) == p.data.classId
    ensures HopOf(net, SlotEnd(net, p).chain, SlotPath(net, p)) == Some(SlotEnd(net, p))
    ensures Rest(SlotEnd(net, p), SlotPath(net, p)) == SlotRest(p)
  {
    HopUnique(net, SlotEnd(net, p), SlotPath(net, p));
  }

  lemma SlotPathOk(net: Net, p: Packet)
    requires ValidNet(net) && p.source in net.peer
    requires PathOk(net, p.source.chain, p.data.classId) && SlotPath(net, p) in net.paths
    ensures PathOk(net, net.peer[SlotEnd(net, p)].chain, SlotRest(p))
    ensures PathOk(net, SlotEnd(net, p).chain, SlotPath(net, p))
  {
    SlotHop(net, p);
    if !Away(p) {
      HopOfNativeContra(net, p.source.chain, p.data.classId);
    }
  }

  lemma HopOfNativeContra(net: Net, x: nat, path: Text)
    requires HopOf(net, x, path).Some?
    ensures !SlashFree(path)
  {
    if SlashFree(path) {
      HopOfNative(net, x, path);
    }
  }
}
