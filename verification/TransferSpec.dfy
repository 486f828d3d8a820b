/** The NFT transfer module on one chain: what sending, receiving and refunding compute. */
module TransferSpec {
  import opened Bytes
  import opened ClassTraces
  import opened NftStore

  /** The NFT store and the trace store, keyed by trace hash. */
  datatype Chain = Chain(nft: Store, traces: map<Text, ClassTrace>)

  datatype PacketData = PacketData(
    classId: Text,
    classUri: Text,
    tokenIds: seq<Text>,
    tokenUris: seq<Text>,
    sender: Text,
    receiver: Text)

  // ---- resolving class identifiers ------------------------------------------------------------

  /** A hash is empty or has 32 bytes. */
  function ParseHexHash(s: Text): Option<Text> {
    match HexDecode(s)
    case None => None
    case Some(d) => if |d| == 0 || |d| == 32 then Some(d) else None
  }

  function ClassPathFromHash(traces: map<Text, ClassTrace>, id: Text): Result<Text, Error>
    requires HasPrefix(id, IBC_PREFIX)
  {
    match ParseHexHash(id[|IBC_PREFIX|..])
    case None => Err(InvalidClassId)
    case Some(h) => if h in traces then Ok(FullClassPath(traces[h])) else Err(TraceNotFound)
  }

  /** The full path of the class stored under an identifier. */
  function ResolvePath(traces: map<Text, ClassTrace>, id: Text): Result<Text, Error> {
    if HasPrefix(id, IBC_PREFIX) then ClassPathFromHash(traces, id) else Ok(id)
  }

  function AddTrace(sha: Text -> Digest, traces: map<Text, ClassTrace>, t: ClassTrace): map<Text, ClassTrace> {
    if sha(FullClassPath(t)) in traces then traces else traces[sha(FullClassPath(t)) := t]
  }

  // ---- batches over token ids -------------------------------------------------------------------

  function Voucher(uri: Text, owner: Address): Nft {
    Nft([], uri, [], owner)
  }

  function TransferAll(s: Store, denom: Text, ids: seq<Text>, src: Address, dst: Address): Result<Store, Error>
    decreases |ids|
  {
    if ids == [] then Ok(s)
    else
      match TransferOwner(s, Key(denom, ids[0]), src, dst)
      case Err(e) => Err(e)
      case Ok(s') => TransferAll(s', denom, ids[1..], src, dst)
  }

  /** A missing URI is an index out of range in the source. */
  function MintAll(s: Store, denom: Text, ids: seq<Text>, uris: seq<Text>, creator: Address, owner: Address)
    : Result<Store, Error>
    decreases |ids|
  {
    if ids == [] then Ok(s)
    else if uris == [] then Err(Panic)
    else
      match Mint(s, Key(denom, ids[0]), Voucher(uris[0], owner), creator)
      case Err(e) => Err(e)
      case Ok(s') => MintAll(s', denom, ids[1..], uris[1..], creator, owner)
  }

  function TakeOne(s: Store, k: Key, sender: Address, away: bool, escrow: Address): Result<Store, Error> {
    if away then TransferOwner(s, k, sender, escrow) else BurnUnverified(s, k, sender)
  }

  /** Escrow or burn the tokens one by one, collecting their URIs behind `uris`. */
  function TakeAll(s: Store, denom: Text, ids: seq<Text>, sender: Address, away: bool, escrow: Address, uris: seq<Text>)
    : Result<(Store, seq<Text>), Error>
    decreases |ids|
  {
    if ids == [] then Ok((s, uris))
    else
      var k := Key(denom, ids[0]);
      if k !in s.nfts then Err(UnknownNft)
      else if s.nfts[k].owner != sender then Err(Unauthorized)
      else
        match TakeOne(s, k, sender, away, escrow)
        case Err(e) => Err(e)
        case Ok(s') => TakeAll(s', denom, ids[1..], sender, away, escrow, uris + [s.nfts[k].uri])
  }

  // ---- the packet handlers ------------------------------------------------------------------------

  function CreateOutgoing(sha: Text -> Digest, c: Chain, port: Text, channel: Text, denom: Text, ids: seq<Text>,
                          sender: Address, senderText: Text, receiver: Text): Result<(Chain, PacketData), Error>
  {
    match GetDenom(c.nft, denom)
    case Err(e) => Err(e)
    case Ok(d) =>
      match ResolvePath(c.traces, denom)
      case Err(e) => Err(e)
      case Ok(path) =>
        match TakeAll(c.nft, denom, ids, sender, IsAwayFromOrigin(port, channel, path),
                      EscrowAddress(sha, port, channel), [])
        case Err(e) => Err(e)
        case Ok((s, uris)) =>
          Ok((c.(nft := s), PacketData(path, d.uri, ids, uris, senderText, receiver)))
  }

  function ValidateBasic(read: Text -> Option<Address>, d: PacketData): Option<Error> {
    if Blank(d.classId) then Some(InvalidClassId)
    else if |d.tokenIds| == 0 then Some(InvalidTokenId)
    else if |d.tokenIds| != |d.tokenUris| then Some(InvalidPacket)
    else if Blank(d.sender) || read(d.sender).None? then Some(InvalidAddress)
    else if Blank(d.receiver) || read(d.receiver).None? then Some(InvalidAddress)
    else None
  }

  /** The store in which the voucher class is present, issued if it was not. */
  function WithClass(s: Store, id: Text, uri: Text, creator: Address): Result<Store, Error> {
    if id in s.denoms then Ok(s) else SetDenom(s, Denom(id, id, [], uri, creator))
  }

  /** Mint vouchers of the class with the given path, recording its trace and issuing it if new. */
  function ReceiveVouchers(sha: Text -> Digest, c: Chain, path: Text, d: PacketData, escrow: Address, receiver: Address)
    : Result<Chain, Error>
  {
    var trace := ParseClassTrace(path);
    var id := IbcClassId(sha, trace);
    var traces := AddTrace(sha, c.traces, trace);
    match WithClass(c.nft, id, d.classUri, escrow)
    case Err(e) => Err(e)
    case Ok(s) =>
      match MintAll(s, id, d.tokenIds, d.tokenUris, escrow, receiver)
      case Err(e) => Err(e)
      case Ok(s') => Ok(Chain(s', traces))
  }

  function ProcessReceived(sha: Text -> Digest, read: Text -> Option<Address>, c: Chain,
                           srcPort: Text, srcChannel: Text, dstPort: Text, dstChannel: Text, d: PacketData)
    : Result<Chain, Error>
  {
    match read(d.receiver)
    case None => Err(InvalidAddress)
    case Some(receiver) =>
      var escrow := EscrowAddress(sha, dstPort, dstChannel);
      if IsAwayFromOrigin(srcPort, srcChannel, d.classId) then
        ReceiveVouchers(sha, c, ClassPrefix(dstPort, dstChannel) + d.classId, d, escrow, receiver)
      else
        var path := RemoveClassPrefix(srcPort, srcChannel, d.classId);
        match TransferAll(c.nft, ClassId(sha, path), d.tokenIds, escrow, receiver)
        case Err(e) => Err(e)
        case Ok(s) => Ok(c.(nft := s))
  }

  function OnRecv(sha: Text -> Digest, read: Text -> Option<Address>, c: Chain,
                  srcPort: Text, srcChannel: Text, dstPort: Text, dstChannel: Text, d: PacketData)
    : Result<Chain, Error>
  {
    match ValidateBasic(read, d)
    case Some(e) => Err(e)
    case None => ProcessReceived(sha, read, c, srcPort, srcChannel, dstPort, dstChannel, d)
  }

  function Refund(sha: Text -> Digest, read: Text -> Option<Address>, c: Chain,
                  srcPort: Text, srcChannel: Text, d: PacketData): Result<Chain, Error>
  {
    match read(d.sender)
    case None => Err(InvalidAddress)
    case Some(sender) =>
      var id := ClassId(sha, d.classId);
      var escrow := EscrowAddress(sha, srcPort, srcChannel);
      var s := if IsAwayFromOrigin(srcPort, srcChannel, d.classId)
               then TransferAll(c.nft, id, d.tokenIds, escrow, sender)
               else MintAll(c.nft, id, d.tokenIds, d.tokenUris, escrow, sender);
      match s
      case Err(e) => Err(e)
      case Ok(s') => Ok(c.(nft := s'))
  }

  // ---- what the batches do -------------------------------------------------------------------------

  /** Exactly the listed tokens change owner. */
  ghost predicate Moved(s: Store, s': Store, denom: Text, ids: seq<Text>, dst: Address) {
    && SameDenoms(s, s')
    && s'.supplies == s.supplies
    && s'.nfts.Keys == s.nfts.Keys
    && (forall k :: k in s.nfts ==>
          s'.nfts[k] == if k.denom == denom && k.token in ids then s.nfts[k].(owner := dst) else s.nfts[k])
  }

  /** Exactly the listed tokens disappear. */
  ghost predicate Removed(s: Store, s': Store, denom: Text, ids: seq<Text>) {
    && SameDenoms(s, s')
    && (forall k :: k in s'.nfts <==> k in s.nfts && !(k.denom == denom && k.token in ids))
    && (forall k :: k in s'.nfts ==> s'.nfts[k] == s.nfts[k])
  }

  /** Exactly the listed tokens appear, as vouchers. */
  ghost predicate Added(s: Store, s': Store, denom: Text, ids: seq<Text>, uris: seq<Text>, owner: Address) {
    && SameDenoms(s, s')
    && |uris| >= |ids|
    && (forall k :: k in s'.nfts <==> k in s.nfts || (k.denom == denom && k.token in ids))
    && (forall k :: k in s.nfts ==> s'.nfts[k] == s.nfts[k])
    && (forall i :: 0 <= i < |ids| ==>
          Key(denom, ids[i]) in s'.nfts && s'.nfts[Key(denom, ids[i])] == Voucher(uris[i], owner))
  }

  ghost predicate AllOwned(s: Store, denom: Text, ids: seq<Text>, a: Address) {
    forall t :: t in ids ==> Key(denom, t) in s.nfts && s.nfts[Key(denom, t)].owner == a
  }

  ghost predicate NonePresent(s: Store, denom: Text, ids: seq<Text>) {
    forall t :: t in ids ==> Key(denom, t) !in s.nfts
  }

  lemma DistinctTail<T>(ids: seq<T>)
    requires ids != []
    ensures Distinct(ids) <==> ids[0] !in ids[1..] && Distinct(ids[1..])
    ensures forall t :: t in ids <==> t == ids[0] || t in ids[1..]
  {
    var r := ids[1..];
    assert ids == [ids[0]] + r;
    if Distinct(ids) {
      forall i | 0 <= i < |r| ensures r[i] != ids[0] {
        assert r[i] == ids[i + 1];
      }
    }
    if ids[0] !in r && Distinct(r) {
      forall i, j | 0 <= i < j < |ids| ensures ids[i] != ids[j] {
        assert ids[j] == r[j - 1];
        if i > 0 { assert ids[i] == r[i - 1]; }
      }
    }
  }

  lemma MovedCompose(s: Store, s1: Store, s2: Store, denom: Text, ids: seq<Text>, dst: Address)
    requires ids != []
    requires Moved(s, s1, denom, [ids[0]], dst) && Moved(s1, s2, denom, ids[1..], dst)
    ensures Moved(s, s2, denom, ids, dst)
  {
    DistinctTail(ids);
    forall k | k in s.nfts
      ensures s2.nfts[k] == if k.denom == denom && k.token in ids then s.nfts[k].(owner := dst) else s.nfts[k]
    {
      assert k.token in [ids[0]] <==> k.token == ids[0];
      assert k in s1.nfts;
    }
  }

  lemma TransferOneMoves(s: Store, denom: Text, t: Text, src: Address, dst: Address)
    requires TransferOwner(s, Key(denom, t), src, dst).Ok?
    ensures Moved(s, TransferOwner(s, Key(denom, t), src, dst).value, denom, [t], dst)
  {
  }

  lemma {:induction false} TransferAllMoves(s: Store, denom: Text, ids: seq<Text>, src: Address, dst: Address)
    requires TransferAll(s, denom, ids, src, dst).Ok?
    ensures Moved(s, TransferAll(s, denom, ids, src, dst).value, denom, ids, dst)
    decreases |ids|
  {
    if ids != [] {
      TransferOneMoves(s, denom, ids[0], src, dst);
      var s1 := TransferOwner(s, Key(denom, ids[0]), src, dst).value;
      TransferAllMoves(s1, denom, ids[1..], src, dst);
      MovedCompose(s, s1, TransferAll(s, denom, ids, src, dst).value, denom, ids, dst);
    }
  }

  /** Moving distinct tokens succeeds exactly when the class exists and the source owns them all. */
  lemma {:induction false} TransferAllSucceeds(s: Store, denom: Text, ids: seq<Text>, src: Address, dst: Address)
    requires Distinct(ids) && ids != []
    ensures TransferAll(s, denom, ids, src, dst).Ok? <==> denom in s.denoms && AllOwned(s, denom, ids, src)
    decreases |ids|
  {
    DistinctTail(ids);
    var one := TransferOwner(s, Key(denom, ids[0]), src, dst);
    if one.Ok? && |ids| > 1 {
      TransferAllSucceeds(one.value, denom, ids[1..], src, dst);
      OwnedElsewhere(s, one.value, denom, ids[0], ids[1..], src, dst);
    }
  }

  lemma OwnedElsewhere(s: Store, s': Store, denom: Text, t: Text, rest: seq<Text>, src: Address, dst: Address)
    requires TransferOwner(s, Key(denom, t), src, dst) == Ok(s') && t !in rest
    ensures AllOwned(s', denom, rest, src) <==> AllOwned(s, denom, rest, src)
  {
    forall u | u in rest
      ensures Key(denom, u) in s'.nfts <==> Key(denom, u) in s.nfts
      ensures Key(denom, u) in s.nfts ==> s'.nfts[Key(denom, u)] == s.nfts[Key(denom, u)]
    {
      assert Key(denom, u) != Key(denom, t);
    }
  }

  lemma AddedCompose(s: Store, s1: Store, s2: Store, denom: Text, ids: seq<Text>, uris: seq<Text>, owner: Address)
    requires ids != [] && uris != []
    requires Added(s, s1, denom, [ids[0]], [uris[0]], owner) && Added(s1, s2, denom, ids[1..], uris[1..], owner)
    ensures Added(s, s2, denom, ids, uris, owner)
  {
    DistinctTail(ids);
    forall i | 0 <= i < |ids|
      ensures Key(denom, ids[i]) in s2.nfts && s2.nfts[Key(denom, ids[i])] == Voucher(uris[i], owner)
    {
      if i == 0 {
        assert Key(denom, [ids[0]][0]) in s1.nfts;
      } else {
        assert ids[i] == ids[1..][i - 1] && uris[i] == uris[1..][i - 1];
      }
    }
    forall k ensures k in s2.nfts <==> k in s.nfts || (k.denom == denom && k.token in ids) {
      assert k.token in [ids[0]] <==> k.token == ids[0];
    }
  }

  lemma MintOneAdds(s: Store, denom: Text, t: Text, uri: Text, creator: Address, owner: Address)
    requires Mint(s, Key(denom, t), Voucher(uri, owner), creator).Ok?
    ensures Added(s, Mint(s, Key(denom, t), Voucher(uri, owner), creator).value, denom, [t], [uri], owner)
  {
  }

  lemma {:induction false} MintAllAdds(s: Store, denom: Text, ids: seq<Text>, uris: seq<Text>,
                                       creator: Address, owner: Address)
    requires MintAll(s, denom, ids, uris, creator, owner).Ok?
    ensures Added(s, MintAll(s, denom, ids, uris, creator, owner).value, denom, ids, uris, owner)
    decreases |ids|
  {
    if ids != [] {
      MintOneAdds(s, denom, ids[0], uris[0], creator, owner);
      var s1 := Mint(s, Key(denom, ids[0]), Voucher(uris[0], owner), creator).value;
      MintAllAdds(s1, denom, ids[1..], uris[1..], creator, owner);
      AddedCompose(s, s1, MintAll(s, denom, ids, uris, creator, owner).value, denom, ids, uris, owner);
    }
  }

  /** Minting distinct tokens succeeds exactly for the class creator and fresh token ids. */
  lemma {:induction false} MintAllSucceeds(s: Store, denom: Text, ids: seq<Text>, uris: seq<Text>,
                                           creator: Address, owner: Address)
    requires Distinct(ids) && ids != []
    ensures MintAll(s, denom, ids, uris, creator, owner).Ok? <==>
            && IsDenomCreator(s, denom, creator).Ok?
            && NonePresent(s, denom, ids)
            && |uris| >= |ids|
    decreases |ids|
  {
    DistinctTail(ids);
    if uris != [] {
      var one := Mint(s, Key(denom, ids[0]), Voucher(uris[0], owner), creator);
      if one.Ok? && |ids| > 1 {
        MintAllSucceeds(one.value, denom, ids[1..], uris[1..], creator, owner);
        assert NonePresent(one.value, denom, ids[1..]) <==> NonePresent(s, denom, ids[1..]);
      }
    }
  }

  lemma RemovedCompose(s: Store, s1: Store, s2: Store, denom: Text, ids: seq<Text>)
    requires ids != []
    requires Removed(s, s1, denom, [ids[0]]) && Removed(s1, s2, denom, ids[1..])
    ensures Removed(s, s2, denom, ids)
  {
    DistinctTail(ids);
    forall k ensures k in s2.nfts <==> k in s.nfts && !(k.denom == denom && k.token in ids) {
      assert k.token in [ids[0]] <==> k.token == ids[0];
    }
  }

  /** The URIs of the listed tokens, in order. */
  ghost predicate UrisOf(s: Store, denom: Text, ids: seq<Text>, uris: seq<Text>) {
    && |uris| == |ids|
    && (forall i :: 0 <= i < |ids| ==>
          Key(denom, ids[i]) in s.nfts && uris[i] == s.nfts[Key(denom, ids[i])].uri)
  }

  ghost predicate Taken(s: Store, s': Store, denom: Text, ids: seq<Text>, away: bool, escrow: Address) {
    if away then Moved(s, s', denom, ids, escrow) else Removed(s, s', denom, ids)
  }

  lemma TakeOneTakes(s: Store, denom: Text, t: Text, sender: Address, away: bool, escrow: Address)
    requires TakeOne(s, Key(denom, t), sender, away, escrow).Ok?
    ensures Taken(s, TakeOne(s, Key(denom, t), sender, away, escrow).value, denom, [t], away, escrow)
  {
  }

  /** What a successful send has taken: distinct tokens, all the sender's, with their URIs in order. */
  lemma {:induction false} TakeAllTakes(s: Store, denom: Text, ids: seq<Text>, sender: Address, away: bool,
                                        escrow: Address, uris: seq<Text>)
    requires TakeAll(s, denom, ids, sender, away, escrow, uris).Ok? && sender != escrow
    ensures var (s', all) := TakeAll(s, denom, ids, sender, away, escrow, uris).value;
            && Taken(s, s', denom, ids, away, escrow)
            && Distinct(ids)
            && AllOwned(s, denom, ids, sender)
            && uris <= all && UrisOf(s, denom, ids, all[|uris|..])
    decreases |ids|
  {
    if ids != [] {
      DistinctTail(ids);
      var k := Key(denom, ids[0]);
      var s1 := TakeOne(s, k, sender, away, escrow).value;
      TakeOneTakes(s, denom, ids[0], sender, away, escrow);
      TakeAllTakes(s1, denom, ids[1..], sender, away, escrow, uris + [s.nfts[k].uri]);
      var (s2, all) := TakeAll(s, denom, ids, sender, away, escrow, uris).value;
      TakenCompose(s, s1, s2, denom, ids, away, escrow);
      FirstUri(all, uris, s.nfts[k].uri);
      TakenFirst(s, s1, denom, ids, sender, away, escrow, all[|uris|..]);
    }
  }

  lemma TakenCompose(s: Store, s1: Store, s2: Store, denom: Text, ids: seq<Text>, away: bool, escrow: Address)
    requires ids != [] && Taken(s, s1, denom, [ids[0]], away, escrow) && Taken(s1, s2, denom, ids[1..], away, escrow)
    ensures Taken(s, s2, denom, ids, away, escrow)
  {
    if away {
      MovedCompose(s, s1, s2, denom, ids, escrow);
    } else {
      RemovedCompose(s, s1, s2, denom, ids);
    }
  }

  lemma FirstUri(all: seq<Text>, uris: seq<Text>, uri: Text)
    requires uris + [uri] <= all
    ensures uris <= all && all[|uris|..] != [] && all[|uris|..][0] == uri
    ensures all[|uris|..][1..] == all[|uris + [uri]|..]
  {
    assert all[|uris|] == (uris + [uri])[|uris|];
    assert all[..|uris|] == (uris + [uri])[..|uris|] == uris;
  }

  lemma TakenFirst(s: Store, s1: Store, denom: Text, ids: seq<Text>, sender: Address, away: bool,
                   escrow: Address, uris: seq<Text>)
    requires ids != [] && uris != [] && sender != escrow
    requires Taken(s, s1, denom, [ids[0]], away, escrow)
    requires Key(denom, ids[0]) in s.nfts && s.nfts[Key(denom, ids[0])].owner == sender
    requires uris[0] == s.nfts[Key(denom, ids[0])].uri
    requires AllOwned(s1, denom, ids[1..], sender) && UrisOf(s1, denom, ids[1..], uris[1..])
    ensures ids[0] !in ids[1..]
    ensures AllOwned(s, denom, ids, sender) && UrisOf(s, denom, ids, uris)
  {
    DistinctTail(ids);
    forall k | k in s1.nfts && k != Key(denom, ids[0])
      ensures k in s.nfts && s1.nfts[k] == s.nfts[k]
    {
      assert k.denom == denom ==> k.token !in [ids[0]];
    }
    assert ids[0] in [ids[0]];
    forall i | 0 <= i < |ids|
      ensures Key(denom, ids[i]) in s.nfts && uris[i] == s.nfts[Key(denom, ids[i])].uri
    {
      if i > 0 {
        assert ids[i] == ids[1..][i - 1] && uris[i] == uris[1..][i - 1];
      }
    }
  }

  lemma OwnedAfterTake(s: Store, s1: Store, denom: Text, ids: seq<Text>, sender: Address, away: bool, escrow: Address)
    requires ids != [] && Distinct(ids) && AllOwned(s, denom, ids, sender)
    requires Taken(s, s1, denom, [ids[0]], away, escrow)
    ensures AllOwned(s1, denom, ids[1..], sender)
  {
    DistinctTail(ids);
    forall t | t in ids[1..]
      ensures Key(denom, t) in s1.nfts && s1.nfts[Key(denom, t)].owner == sender
    {
      assert t in ids && t !in [ids[0]];
    }
  }

  lemma {:induction false} OwnedCanBeTaken(s: Store, denom: Text, ids: seq<Text>, sender: Address, away: bool,
                                           escrow: Address, uris: seq<Text>)
    requires denom in s.denoms && Distinct(ids) && AllOwned(s, denom, ids, sender)
    ensures TakeAll(s, denom, ids, sender, away, escrow, uris).Ok?
    decreases |ids|
  {
    if ids != [] {
      var k := Key(denom, ids[0]);
      assert ids[0] in ids;
      TakeOneTakes(s, denom, ids[0], sender, away, escrow);
      var s1 := TakeOne(s, k, sender, away, escrow).value;
      OwnedAfterTake(s, s1, denom, ids, sender, away, escrow);
      DistinctTail(ids);
      OwnedCanBeTaken(s1, denom, ids[1..], sender, away, escrow, uris + [s.nfts[k].uri]);
    }
  }

  /** What receiving vouchers does: the class is there, exactly the listed vouchers appear, and the trace is stored. */
  lemma VouchersAdded(sha: Text -> Digest, c: Chain, path: Text, d: PacketData, escrow: Address, to: Address)
    returns (s: Store)
    requires ReceiveVouchers(sha, c, path, d, escrow, to).Ok?
    ensures WithClass(c.nft, ClassId(sha, path), d.classUri, escrow) == Ok(s) && s.nfts == c.nft.nfts
    ensures
      var c' := ReceiveVouchers(sha, c, path, d, escrow, to).value;
      && Added(s, c'.nft, ClassId(sha, path), d.tokenIds, d.tokenUris, to)
      && c'.traces == AddTrace(sha, c.traces, ParseClassTrace(path))
  {
    var id := ClassId(sha, path);
    s := WithClass(c.nft, id, d.classUri, escrow).value;
    MintAllAdds(s, id, d.tokenIds, d.tokenUris, escrow, to);
  }

  // ---- where a batch stops ----------------------------------------------------------------------------

  /** A batch fails with the error of the first token that cannot be taken, after taking those before it. */
  lemma {:induction false} TakeAllFails(s: Store, denom: Text, ids: seq<Text>, sender: Address, away: bool,
                                        escrow: Address, uris: seq<Text>) returns (i: nat)
    requires TakeAll(s, denom, ids, sender, away, escrow, uris).Err?
    ensures i < |ids| && TakeAll(s, denom, ids[..i], sender, away, escrow, uris).Ok?
    ensures
      var s1, k := TakeAll(s, denom, ids[..i], sender, away, escrow, uris).value.0, Key(denom, ids[i]);
      TakeAll(s, denom, ids, sender, away, escrow, uris).error ==
        if k !in s1.nfts then UnknownNft else if s1.nfts[k].owner != sender then Unauthorized else InvalidDenom
    decreases |ids|
  {
    var k := Key(denom, ids[0]);
    i := 0;
    if k in s.nfts && s.nfts[k].owner == sender && TakeOne(s, k, sender, away, escrow).Ok? {
      var j := TakeAllFails(TakeOne(s, k, sender, away, escrow).value, denom, ids[1..], sender, away, escrow,
                            uris + [s.nfts[k].uri]);
      i := j + 1;
      assert ids[..i][1..] == ids[1..][..j];
    }
  }

  lemma {:induction false} TransferAllFails(s: Store, denom: Text, ids: seq<Text>, src: Address, dst: Address)
    returns (i: nat)
    requires TransferAll(s, denom, ids, src, dst).Err?
    ensures i < |ids| && TransferAll(s, denom, ids[..i], src, dst).Ok?
    ensures
      var s1, k := TransferAll(s, denom, ids[..i], src, dst).value, Key(denom, ids[i]);
      TransferAll(s, denom, ids, src, dst).error ==
        if denom !in s1.denoms then InvalidDenom else if k !in s1.nfts then UnknownNft else Unauthorized
    decreases |ids|
  {
    var one := TransferOwner(s, Key(denom, ids[0]), src, dst);
    i := 0;
    if one.Ok? {
      var j := TransferAllFails(one.value, denom, ids[1..], src, dst);
      i := j + 1;
      assert ids[..i][1..] == ids[1..][..j];
    }
  }

  lemma {:induction false} MintAllFails(s: Store, denom: Text, ids: seq<Text>, uris: seq<Text>,
                                        creator: Address, owner: Address) returns (i: nat)
    requires MintAll(s, denom, ids, uris, creator, owner).Err?
    ensures i < |ids| && MintAll(s, denom, ids[..i], uris, creator, owner).Ok?
    ensures
      var s1 := MintAll(s, denom, ids[..i], uris, creator, owner).value;
      MintAll(s, denom, ids, uris, creator, owner).error ==
        if i == |uris| then Panic
        else if denom !in s1.denoms then InvalidDenom
        else if s1.denoms[denom].creator != creator then Unauthorized
        else NftAlreadyExists
    decreases |ids|
  {
    i := 0;
    if uris != [] {
      var one := Mint(s, Key(denom, ids[0]), Voucher(uris[0], owner), creator);
      if one.Ok? {
        var j := MintAllFails(one.value, denom, ids[1..], uris[1..], creator, owner);
        i := j + 1;
        assert ids[..i][1..] == ids[1..][..j];
      }
    }
  }

  // ---- when the handlers succeed --------------------------------------------------------------------

  /** The checks on a packet, with the first that fails. */
  lemma BasicChecks(read: Text -> Option<Address>, d: PacketData)
    ensures
      var r := ValidateBasic(read, d);
      && (r == Some(InvalidClassId) <==> Blank(d.classId))
      && (r == Some(InvalidTokenId) <==> !Blank(d.classId) && d.tokenIds == [])
      && (r == Some(InvalidPacket) <==> !Blank(d.classId) && 0 < |d.tokenIds| != |d.tokenUris|)
      && (r == Some(InvalidAddress) <==>
            && !Blank(d.classId) && 0 < |d.tokenIds| == |d.tokenUris|
            && (Blank(d.sender) || read(d.sender).None? || Blank(d.receiver) || read(d.receiver).None?))
      && (r.Some? ==> r.value in {InvalidClassId, InvalidTokenId, InvalidPacket, InvalidAddress})
  {
  }

  lemma SameHex(d: Text, h: Text)
    requires HexEncode(d) == HexEncode(h)
    ensures d == h
  {
    HexRoundTrip(d);
    HexRoundTrip(h);
  }

  /** Which texts are hashes, and of what: none or 64 digits, in either case. */
  lemma HashParses(s: Text, h: Text)
    ensures ParseHexHash(s).Some? <==> HexDigits(s) && (|s| == 0 || |s| == 64)
    ensures ParseHexHash(s) == Some(h) <==> HexDigits(s) && (|h| == 0 || |h| == 32) && HexEncode(h) == UpperText(s)
  {
    HexAccepts(s);
    HexRoundTrip(h);
    if HexDecode(s).Some? {
      HexRoundTrip(HexDecode(s).value);
      assert |s| == 2 * |HexDecode(s).value|;
      if HexEncode(h) == UpperText(s) {
        SameHex(h, HexDecode(s).value);
      }
    }
  }

  /** How an id resolves: a native one to itself, a voucher's to the path that is stored under its hash. */
  lemma ResolveOutcome(traces: map<Text, ClassTrace>, id: Text, h: Text)
    ensures !HasPrefix(id, IBC_PREFIX) ==> ResolvePath(traces, id) == Ok(id)
    ensures HasPrefix(id, IBC_PREFIX) ==>
      var r, digits := ResolvePath(traces, id), id[|IBC_PREFIX|..];
      && (r == Err(InvalidClassId) <==> !HexDigits(digits) || (|digits| != 0 && |digits| != 64))
      && (HexDigits(digits) && (|h| == 0 || |h| == 32) && HexEncode(h) == UpperText(digits) ==>
            r == if h in traces then Ok(FullClassPath(traces[h])) else Err(TraceNotFound))
  {
    if HasPrefix(id, IBC_PREFIX) {
      HashParses(id[|IBC_PREFIX|..], h);
    }
  }

  /** What the packet of a send says: the full class path, the URI of the class, the ids, and who sends to whom. */
  lemma PacketSays(sha: Text -> Digest, c: Chain, port: Text, channel: Text, denom: Text, ids: seq<Text>,
                   sender: Address, senderText: Text, receiver: Text)
    requires CreateOutgoing(sha, c, port, channel, denom, ids, sender, senderText, receiver).Ok?
    ensures
      var d := CreateOutgoing(sha, c, port, channel, denom, ids, sender, senderText, receiver).value.1;
      && denom in c.nft.denoms && d.classUri == c.nft.denoms[denom].uri
      && ResolvePath(c.traces, denom) == Ok(d.classId) && d.tokenIds == ids
      && d.sender == senderText && d.receiver == receiver
  {
  }

  /** A send by an account other than the escrow goes through exactly when the class exists and resolves, and the
      listed tokens are distinct and all the sender's. */
  lemma SendSucceeds(sha: Text -> Digest, c: Chain, port: Text, channel: Text, denom: Text, ids: seq<Text>,
                     sender: Address, senderText: Text, receiver: Text)
    requires sender != EscrowAddress(sha, port, channel)
    ensures CreateOutgoing(sha, c, port, channel, denom, ids, sender, senderText, receiver).Ok? <==>
      && denom in c.nft.denoms && ResolvePath(c.traces, denom).Ok?
      && Distinct(ids) && AllOwned(c.nft, denom, ids, sender)
  {
    if denom in c.nft.denoms && ResolvePath(c.traces, denom).Ok? {
      var away := IsAwayFromOrigin(port, channel, ResolvePath(c.traces, denom).value);
      var escrow := EscrowAddress(sha, port, channel);
      if TakeAll(c.nft, denom, ids, sender, away, escrow, []).Ok? {
        TakeAllTakes(c.nft, denom, ids, sender, away, escrow, []);
      }
      if Distinct(ids) && AllOwned(c.nft, denom, ids, sender) {
        OwnedCanBeTaken(c.nft, denom, ids, sender, away, escrow, []);
      }
    }
  }

  /** Escrowed tokens can be given back exactly when the class exists and the escrow holds them all. */
  lemma RefundEscrowed(sha: Text -> Digest, read: Text -> Option<Address>, c: Chain, port: Text, channel: Text,
                       d: PacketData)
    requires IsAwayFromOrigin(port, channel, d.classId) && Distinct(d.tokenIds) && d.tokenIds != []
    ensures Refund(sha, read, c, port, channel, d).Ok? <==>
            && read(d.sender).Some?
            && ClassId(sha, d.classId) in c.nft.denoms
            && AllOwned(c.nft, ClassId(sha, d.classId), d.tokenIds, EscrowAddress(sha, port, channel))
  {
    if read(d.sender).Some? {
      TransferAllSucceeds(c.nft, ClassId(sha, d.classId), d.tokenIds, EscrowAddress(sha, port, channel),
                          read(d.sender).value);
    }
  }

  /** Burned vouchers can be minted again exactly when the escrow account created the class,
      none of them exists and every one has a URI. */
  lemma RefundBurned(sha: Text -> Digest, read: Text -> Option<Address>, c: Chain, port: Text, channel: Text,
                     d: PacketData)
    requires !IsAwayFromOrigin(port, channel, d.classId) && Distinct(d.tokenIds) && d.tokenIds != []
    ensures Refund(sha, read, c, port, channel, d).Ok? <==>
            && read(d.sender).Some?
            && IsDenomCreator(c.nft, ClassId(sha, d.classId), EscrowAddress(sha, port, channel)).Ok?
            && NonePresent(c.nft, ClassId(sha, d.classId), d.tokenIds)
            && |d.tokenUris| >= |d.tokenIds|
  {
    if read(d.sender).Some? {
      MintAllSucceeds(c.nft, ClassId(sha, d.classId), d.tokenIds, d.tokenUris, EscrowAddress(sha, port, channel),
                      read(d.sender).value);
    }
  }

  /** A homeward packet is accepted exactly when it is well formed and the escrow holds its tokens. */
  lemma ReceiveHomeward(sha: Text -> Digest, read: Text -> Option<Address>, c: Chain,
                        srcPort: Text, srcChannel: Text, dstPort: Text, dstChannel: Text, d: PacketData)
    requires !IsAwayFromOrigin(srcPort, srcChannel, d.classId) && Distinct(d.tokenIds)
    ensures var id := ClassId(sha, RemoveClassPrefix(srcPort, srcChannel, d.classId));
            OnRecv(sha, read, c, srcPort, srcChannel, dstPort, dstChannel, d).Ok? <==>
              && ValidateBasic(read, d).None?
              && id in c.nft.denoms
              && AllOwned(c.nft, id, d.tokenIds, EscrowAddress(sha, dstPort, dstChannel))
  {
    if ValidateBasic(read, d).None? {
      TransferAllSucceeds(c.nft, ClassId(sha, RemoveClassPrefix(srcPort, srcChannel, d.classId)), d.tokenIds,
                          EscrowAddress(sha, dstPort, dstChannel), read(d.receiver).value);
    }
  }

  /** An outward packet is accepted exactly when it is well formed, its class exists with the escrow
      account as creator or can be issued, and none of its tokens exists. */
  lemma ReceiveOutward(sha: Text -> Digest, read: Text -> Option<Address>, c: Chain,
                       srcPort: Text, srcChannel: Text, dstPort: Text, dstChannel: Text, d: PacketData)
    requires IsAwayFromOrigin(srcPort, srcChannel, d.classId) && Distinct(d.tokenIds)
    ensures var id := ClassId(sha, ClassPrefix(dstPort, dstChannel) + d.classId);
            var escrow := EscrowAddress(sha, dstPort, dstChannel);
            OnRecv(sha, read, c, srcPort, srcChannel, dstPort, dstChannel, d).Ok? <==>
              && ValidateBasic(read, d).None?
              && (if id in c.nft.denoms then c.nft.denoms[id].creator == escrow else id !in c.nft.names)
              && NonePresent(c.nft, id, d.tokenIds)
  {
    var id := ClassId(sha, ClassPrefix(dstPort, dstChannel) + d.classId);
    var escrow := EscrowAddress(sha, dstPort, dstChannel);
    var issued := WithClass(c.nft, id, d.classUri, escrow);
    if ValidateBasic(read, d).None? && issued.Ok? {
      MintAllSucceeds(issued.value, id, d.tokenIds, d.tokenUris, escrow, read(d.receiver).value);
    }
  }
}
