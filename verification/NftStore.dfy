/** The NFT module's store of one chain, as a value, and the keeper's operations on it. */
module NftStore {
  import opened Bytes

  type Address = Text

  datatype Error =
    | InvalidDenom
    | UnknownNft
    | NftAlreadyExists
    | Unauthorized
    | InvalidClassId
    | TraceNotFound
    | InvalidTokenId
    | InvalidPacket
    | InvalidAddress
    | Panic

  datatype Denom = Denom(id: Text, name: Text, schema: Text, uri: Text, creator: Address)

  datatype Nft = Nft(name: Text, uri: Text, data: Text, owner: Address)

  datatype Key = Key(denom: Text, token: Text)

  datatype OwnerKey = OwnerKey(owner: Address, key: Key)

  /** Denoms by id, denom ids by name, tokens, the owner index and the supply counters. */
  datatype Store = Store(
    denoms: map<Text, Denom>,
    names: map<Text, Text>,
    nfts: map<Key, Nft>,
    owners: set<OwnerKey>,
    supplies: map<Text, int>)

  const EMPTY := Store(map[], map[], map[], {}, map[])

  // ---- denoms -------------------------------------------------------------------------------

  function SetDenom(s: Store, d: Denom): Result<Store, Error> {
    if d.id in s.denoms then Err(InvalidDenom)
    else if d.name in s.names then Err(InvalidDenom)
    else Ok(s.(denoms := s.denoms[d.id := d], names := s.names[d.name := d.id]))
  }

  function GetDenom(s: Store, id: Text): Result<Denom, Error> {
    if id in s.denoms then Ok(s.denoms[id]) else Err(InvalidDenom)
  }

  /** A missing name reads as the empty id. */
  function GetDenomByName(s: Store, name: Text): Result<Denom, Error> {
    GetDenom(s, if name in s.names then s.names[name] else [])
  }

  function IsDenomCreator(s: Store, id: Text, a: Address): Result<Denom, Error> {
    if id !in s.denoms then Err(InvalidDenom)
    else if s.denoms[id].creator != a then Err(Unauthorized)
    else Ok(s.denoms[id])
  }

  // ---- supply counters, in 64-bit arithmetic ------------------------------------------------

  function TotalSupply(s: Store, denom: Text): int {
    if denom in s.supplies then s.supplies[denom] else 0
  }

  function IncreaseSupply(s: Store, denom: Text): Store {
    s.(supplies := s.supplies[denom := (TotalSupply(s, denom) + 1) % TWO64])
  }

  function DecreaseSupply(s: Store, denom: Text): Store {
    var n := (TotalSupply(s, denom) - 1) % TWO64;
    s.(supplies := if n == 0 then s.supplies - {denom} else s.supplies[denom := n])
  }

  // ---- tokens ---------------------------------------------------------------------------------

  function IsOwner(s: Store, k: Key, a: Address): Result<Nft, Error> {
    if k !in s.nfts then Err(UnknownNft)
    else if s.nfts[k].owner != a then Err(Unauthorized)
    else Ok(s.nfts[k])
  }

  function MintUnverified(s: Store, k: Key, n: Nft): Result<Store, Error> {
    if k.denom !in s.denoms then Err(InvalidDenom)
    else if k in s.nfts then Err(NftAlreadyExists)
    else
      Ok(IncreaseSupply(
           s.(nfts := s.nfts[k := n], owners := s.owners + {OwnerKey(n.owner, k)}), k.denom))
  }

  function Mint(s: Store, k: Key, n: Nft, sender: Address): Result<Store, Error> {
    match IsDenomCreator(s, k.denom, sender)
    case Err(e) => Err(e)
    case Ok(_) => MintUnverified(s, k, n)
  }

  function TransferOwner(s: Store, k: Key, src: Address, dst: Address): Result<Store, Error> {
    if k.denom !in s.denoms then Err(InvalidDenom)
    else
      match IsOwner(s, k, src)
      case Err(e) => Err(e)
      case Ok(n) =>
        Ok(s.(nfts := s.nfts[k := n.(owner := dst)],
              owners := s.owners - {OwnerKey(src, k)} + {OwnerKey(dst, k)}))
  }

  function BurnUnverified(s: Store, k: Key, owner: Address): Result<Store, Error> {
    if k.denom !in s.denoms then Err(InvalidDenom)
    else
      match IsOwner(s, k, owner)
      case Err(e) => Err(e)
      case Ok(_) =>
        Ok(DecreaseSupply(
             s.(nfts := s.nfts - {k}, owners := s.owners - {OwnerKey(owner, k)}), k.denom))
  }

  function Burn(s: Store, k: Key, owner: Address): Result<Store, Error> {
    match BurnUnverified(s, k, owner)
    case Err(e) => Err(e)
    case Ok(s') => if IsDenomCreator(s, k.denom, owner).Ok? then Ok(s') else Err(Unauthorized)
  }

  /** Fields given as None keep their value. */
  function Edit(s: Store, k: Key, name: Option<Text>, uri: Option<Text>, data: Option<Text>,
                owner: Address): Result<Store, Error>
  {
    if k.denom !in s.denoms then Err(InvalidDenom)
    else
      match IsOwner(s, k, owner)
      case Err(e) => Err(e)
      case Ok(n) =>
        if IsDenomCreator(s, k.denom, owner).Err? then Err(Unauthorized)
        else
          var n' := Nft(if name.Some? then name.value else n.name,
                        if uri.Some? then uri.value else n.uri,
                        if data.Some? then data.value else n.data,
                        n.owner);
          Ok(s.(nfts := s.nfts[k := n']))
  }

  // ---- what each operation answers --------------------------------------------------------------

  /** Nothing but the tokens, and what is derived from them, differs. */
  ghost predicate SameDenoms(s: Store, s': Store) {
    s'.denoms == s.denoms && s'.names == s.names
  }

  /** The record of one token, if it exists. */
  function Find(s: Store, k: Key): Option<Nft> {
    if k in s.nfts then Some(s.nfts[k]) else None
  }

  ghost predicate OtherTokensSame(s: Store, s': Store, k: Key) {
    forall j :: j != k ==> Find(s', j) == Find(s, j)
  }

  /** A class is stored, and found by its id and by its name, exactly when both are free. */
  lemma DenomOutcome(s: Store, d: Denom)
    ensures SetDenom(s, d).Ok? <==> d.id !in s.denoms && d.name !in s.names
    ensures SetDenom(s, d).Err? ==> SetDenom(s, d).error == InvalidDenom
    ensures SetDenom(s, d).Ok? ==>
      var s' := SetDenom(s, d).value;
      && GetDenom(s', d.id) == Ok(d) && GetDenomByName(s', d.name) == Ok(d)
      && (forall id :: id != d.id ==> GetDenom(s', id) == GetDenom(s, id))
      && s' == s.(denoms := s'.denoms, names := s'.names)
  {
  }

  /** A token is minted as given, exactly by the creator of its class and under a free id. */
  lemma MintOutcome(s: Store, k: Key, n: Nft, sender: Address)
    ensures
      var r := Mint(s, k, n, sender);
      && (r == Err(InvalidDenom) <==> k.denom !in s.denoms)
      && (r == Err(Unauthorized) <==> k.denom in s.denoms && s.denoms[k.denom].creator != sender)
      && (r == Err(NftAlreadyExists) <==> k.denom in s.denoms && s.denoms[k.denom].creator == sender && k in s.nfts)
      && (r.Err? ==> r.error in {InvalidDenom, Unauthorized, NftAlreadyExists})
      && (r.Ok? ==> SameDenoms(s, r.value) && Find(r.value, k) == Some(n) && OtherTokensSame(s, r.value, k))
  {
  }

  /** Only the owner can give a token away, and only its owner changes. */
  lemma TransferOutcome(s: Store, k: Key, src: Address, dst: Address)
    ensures
      var r := TransferOwner(s, k, src, dst);
      && (r == Err(InvalidDenom) <==> k.denom !in s.denoms)
      && (r == Err(UnknownNft) <==> k.denom in s.denoms && k !in s.nfts)
      && (r == Err(Unauthorized) <==> k.denom in s.denoms && k in s.nfts && s.nfts[k].owner != src)
      && (r.Err? ==> r.error in {InvalidDenom, UnknownNft, Unauthorized})
      && (r.Ok? ==> SameDenoms(s, r.value) && OtherTokensSame(s, r.value, k))
      && (r.Ok? ==> k in s.nfts && Find(r.value, k) == Some(s.nfts[k].(owner := dst)))
  {
  }

  /** A token is removed exactly by its owner, who must have created the class unless the check is left out. */
  lemma BurnOutcome(s: Store, k: Key, owner: Address, verified: bool)
    ensures
      var r := if verified then Burn(s, k, owner) else BurnUnverified(s, k, owner);
      && (r == Err(InvalidDenom) <==> k.denom !in s.denoms)
      && (r == Err(UnknownNft) <==> k.denom in s.denoms && k !in s.nfts)
      && (r == Err(Unauthorized) <==>
            && k.denom in s.denoms && k in s.nfts
            && (s.nfts[k].owner != owner || (verified && s.denoms[k.denom].creator != owner)))
      && (r.Err? ==> r.error in {InvalidDenom, UnknownNft, Unauthorized})
      && (r.Ok? ==> SameDenoms(s, r.value) && Find(r.value, k) == None && OtherTokensSame(s, r.value, k))
  {
  }

  /** A given field replaces the old one and the others stay, exactly for the owner who created the class. */
  lemma EditOutcome(s: Store, k: Key, name: Option<Text>, uri: Option<Text>, data: Option<Text>, owner: Address)
    ensures
      var r := Edit(s, k, name, uri, data, owner);
      && (r == Err(InvalidDenom) <==> k.denom !in s.denoms)
      && (r == Err(UnknownNft) <==> k.denom in s.denoms && k !in s.nfts)
      && (r == Err(Unauthorized) <==>
            k.denom in s.denoms && k in s.nfts && (s.nfts[k].owner != owner || s.denoms[k.denom].creator != owner))
      && (r.Err? ==> r.error in {InvalidDenom, UnknownNft, Unauthorized})
      && (r.Ok? ==> SameDenoms(s, r.value) && OtherTokensSame(s, r.value, k) && k in s.nfts && k in r.value.nfts)
      && (r.Ok? ==>
            var before, after := s.nfts[k], r.value.nfts[k];
            && after.owner == before.owner
            && (name.Some? ==> after.name == name.value) && (name.None? ==> after.name == before.name)
            && (uri.Some? ==> after.uri == uri.value) && (uri.None? ==> after.uri == before.uri)
            && (data.Some? ==> after.data == data.value) && (data.None? ==> after.data == before.data))
  {
  }

  /** The counter goes up by one, around 2^64, and the others stay. */
  lemma SupplyUp(s: Store, denom: Text)
    requires 0 <= TotalSupply(s, denom) < TWO64
    ensures
      var s', n := IncreaseSupply(s, denom), TotalSupply(s, denom);
      && s' == s.(supplies := s'.supplies)
      && TotalSupply(s', denom) == (if n == TWO64 - 1 then 0 else n + 1)
      && forall d :: d != denom ==> TotalSupply(s', d) == TotalSupply(s, d)
  {
  }

  /** It goes down by one, around zero, the others stay, and no entry that holds zero is left. */
  lemma SupplyDown(s: Store, denom: Text)
    requires 0 <= TotalSupply(s, denom) < TWO64
    ensures
      var s', n := DecreaseSupply(s, denom), TotalSupply(s, denom);
      && s' == s.(supplies := s'.supplies)
      && TotalSupply(s', denom) == (if n == 0 then TWO64 - 1 else n - 1)
      && (denom in s'.supplies <==> n != 1)
      && forall d :: d != denom ==> TotalSupply(s', d) == TotalSupply(s, d)
  {
  }

  // ---- consistency ------------------------------------------------------------------------------

  ghost function TokensOf(s: Store, denom: Text): set<Key> {
    set k | k in s.nfts && k.denom == denom
  }

  /** The id and name indices are inverse to each other. */
  ghost predicate IndicesInverse(s: Store) {
    && (forall id :: id in s.denoms ==>
          && s.denoms[id].id == id
          && s.denoms[id].name in s.names
          && s.names[s.denoms[id].name] == id)
    && (forall name :: name in s.names ==>
          s.names[name] in s.denoms && s.denoms[s.names[name]].name == name)
  }

  /** Looking up a name finds a denom exactly when one has that name, or the name is unknown and some denom has the
      empty id. */
  lemma FoundByName(s: Store, name: Text)
    requires IndicesInverse(s)
    ensures GetDenomByName(s, name).Ok? <==>
      (exists id :: id in s.denoms && s.denoms[id].name == name) || [] in s.denoms
    ensures forall id :: id in s.denoms && s.denoms[id].name == name ==> GetDenomByName(s, name) == Ok(s.denoms[id])
  {
    if name in s.names {
      assert s.names[name] in s.denoms;
    }
  }

  ghost predicate OwnersMatch(s: Store) {
    && (forall k :: k in s.nfts ==> OwnerKey(s.nfts[k].owner, k) in s.owners)
    && (forall o :: o in s.owners ==> o.key in s.nfts && s.nfts[o.key].owner == o.owner)
  }

  ghost predicate SuppliesMatch(s: Store) {
    forall d :: TotalSupply(s, d) == |TokensOf(s, d)| % TWO64
  }

  /** What every keeper operation keeps of the redundant parts of the store. */
  ghost predicate Consistent(s: Store) {
    && IndicesInverse(s)
    && (forall k :: k in s.nfts ==> k.denom in s.denoms)
    && OwnersMatch(s)
    && SuppliesMatch(s)
  }

  lemma WrapAdd(n: nat)
    ensures (n % TWO64 + 1) % TWO64 == (n + 1) % TWO64
  {
  }

  lemma MintKeepsSupplies(s: Store, k: Key, n: Nft, d: Text)
    requires SuppliesMatch(s) && MintUnverified(s, k, n).Ok?
    ensures var s' := MintUnverified(s, k, n).value;
            TotalSupply(s', d) == |TokensOf(s', d)| % TWO64
  {
    var s' := MintUnverified(s, k, n).value;
    assert TotalSupply(s, d) == |TokensOf(s, d)| % TWO64;
    if d == k.denom {
      assert TokensOf(s', d) == TokensOf(s, d) + {k};
      WrapAdd(|TokensOf(s, d)|);
    } else {
      assert TokensOf(s', d) == TokensOf(s, d);
    }
  }

  lemma MintKeepsConsistent(s: Store, k: Key, n: Nft)
    requires Consistent(s) && MintUnverified(s, k, n).Ok?
    ensures Consistent(MintUnverified(s, k, n).value)
  {
    var s' := MintUnverified(s, k, n).value;
    forall d ensures TotalSupply(s', d) == |TokensOf(s', d)| % TWO64 {
      MintKeepsSupplies(s, k, n, d);
    }
  }

  lemma TransferKeepsConsistent(s: Store, k: Key, src: Address, dst: Address)
    requires Consistent(s) && TransferOwner(s, k, src, dst).Ok?
    ensures Consistent(TransferOwner(s, k, src, dst).value)
  {
    var s' := TransferOwner(s, k, src, dst).value;
    forall d ensures TotalSupply(s', d) == |TokensOf(s', d)| % TWO64 {
      assert TokensOf(s', d) == TokensOf(s, d);
    }
  }

  lemma WrapSubtract(n: nat)
    requires n > 0
    ensures (n % TWO64 - 1) % TWO64 == (n - 1) % TWO64
  {
  }

  lemma BurnKeepsSupplies(s: Store, k: Key, owner: Address, d: Text)
    requires SuppliesMatch(s) && BurnUnverified(s, k, owner).Ok?
    ensures var s' := BurnUnverified(s, k, owner).value;
            TotalSupply(s', d) == |TokensOf(s', d)| % TWO64
  {
    var s' := BurnUnverified(s, k, owner).value;
    assert TotalSupply(s, d) == |TokensOf(s, d)| % TWO64;
    if d == k.denom {
      assert TokensOf(s', d) == TokensOf(s, d) - {k};
      assert k in TokensOf(s, d);
      WrapSubtract(|TokensOf(s, d)|);
    } else {
      assert TokensOf(s', d) == TokensOf(s, d);
    }
  }

  lemma BurnKeepsConsistent(s: Store, k: Key, owner: Address)
    requires Consistent(s) && BurnUnverified(s, k, owner).Ok?
    ensures Consistent(BurnUnverified(s, k, owner).value)
  {
    var s' := BurnUnverified(s, k, owner).value;
    forall d ensures TotalSupply(s', d) == |TokensOf(s', d)| % TWO64 {
      BurnKeepsSupplies(s, k, owner, d);
    }
  }

  lemma EditKeepsConsistent(s: Store, k: Key, name: Option<Text>, uri: Option<Text>, data: Option<Text>,
                            owner: Address)
    requires Consistent(s) && Edit(s, k, name, uri, data, owner).Ok?
    ensures Consistent(Edit(s, k, name, uri, data, owner).value)
  {
    var s' := Edit(s, k, name, uri, data, owner).value;
    forall d ensures TotalSupply(s', d) == |TokensOf(s', d)| % TWO64 {
      assert TokensOf(s', d) == TokensOf(s, d);
    }
  }

  lemma SetDenomKeepsConsistent(s: Store, d: Denom)
    requires Consistent(s) && SetDenom(s, d).Ok?
    ensures Consistent(SetDenom(s, d).value)
  {
    var s' := SetDenom(s, d).value;
    forall x ensures TotalSupply(s', x) == |TokensOf(s', x)| % TWO64 {
      assert TokensOf(s', x) == TokensOf(s, x);
    }
  }

  /** Everything a client can read is the same. */
  ghost predicate SameContents(s: Store, s': Store) {
    && s.denoms == s'.denoms && s.names == s'.names && s.nfts == s'.nfts && s.owners == s'.owners
    && (forall d :: TotalSupply(s, d) == TotalSupply(s', d))
  }

  /** The redundant parts of a store follow from its denoms and tokens. */
  lemma Determined(s: Store, s': Store)
    requires Consistent(s) && Consistent(s') && s.denoms == s'.denoms && s.nfts == s'.nfts
    ensures SameContents(s, s')
  {
    forall d
      ensures TotalSupply(s, d) == TotalSupply(s', d)
    {
      assert TokensOf(s, d) == TokensOf(s', d);
    }
  }
}
