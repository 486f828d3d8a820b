/** The keepers as objects that update their stores in place, each method tied to the value-level
    operation it computes. */
module Keepers {
  import opened Bytes
  import opened ClassTraces
  import N = NftStore
  import T = TransferSpec
  import W = Network
  import K = Keys
  import G = NftGenesis
  import M = Messages
  import R = TraceGenesis

  type Address = N.Address

  type Error = N.Error

  /** A method's error, against the outcome of the value-level operation. A failed single operation
      has written nothing. */
  ghost predicate Agrees(err: Option<Error>, was: N.Store, now: N.Store, spec: Result<N.Store, Error>) {
    match spec
    case Ok(s) => err.None? && now == s
    case Err(e) => err == Some(e) && now == was
  }

  // ---- the NFT keeper ------------------------------------------------------------------------------

  class NftKeeper {
    var denoms: map<Text, N.Denom>
    var names: map<Text, Text>
    var nfts: map<N.Key, N.Nft>
    var owners: set<N.OwnerKey>
    var supplies: map<Text, int>

    constructor ()
      ensures State() == N.EMPTY
    {
      denoms, names, nfts, owners, supplies := map[], map[], map[], {}, map[];
    }

    function State(): N.Store
      reads this
    {
      N.Store(denoms, names, nfts, owners, supplies)
    }

    /** Used to bring back the store of a transaction that failed. */
    method Reset(s: N.Store)
      modifies this
      ensures State() == s
    {
      denoms, names, nfts, owners, supplies := s.denoms, s.names, s.nfts, s.owners, s.supplies;
    }

    method SetDenom(d: N.Denom) returns (err: Option<Error>)
      modifies this
      ensures Agrees(err, old(State()), State(), N.SetDenom(old(State()), d))
    {
      if d.id in denoms {
        return Some(N.InvalidDenom);
      }
      if d.name in names {
        return Some(N.InvalidDenom);
      }
      denoms := denoms[d.id := d];
      names := names[d.name := d.id];
      return None;
    }

    method IssueDenom(id: Text, name: Text, schema: Text, uri: Text, creator: Address) returns (err: Option<Error>)
      modifies this
      ensures Agrees(err, old(State()), State(), N.SetDenom(old(State()), N.Denom(id, name, schema, uri, creator)))
    {
      err := SetDenom(N.Denom(id, name, schema, uri, creator));
    }

    method IncreaseSupply(denom: Text)
      modifies this`supplies
      ensures State() == N.IncreaseSupply(old(State()), denom)
    {
      var supply := if denom in supplies then supplies[denom] else 0;
      supply := (supply + 1) % TWO64;
      supplies := supplies[denom := supply];
    }

    method DecreaseSupply(denom: Text)
      modifies this`supplies
      ensures State() == N.DecreaseSupply(old(State()), denom)
    {
      var supply := if denom in supplies then supplies[denom] else 0;
      supply := (supply - 1) % TWO64;
      if supply == 0 {
        supplies := supplies - {denom};
        return;
      }
      supplies := supplies[denom := supply];
    }

    method MintNFTUnverified(k: N.Key, n: N.Nft) returns (err: Option<Error>)
      modifies this
      ensures Agrees(err, old(State()), State(), N.MintUnverified(old(State()), k, n))
    {
      if k.denom !in denoms {
        return Some(N.InvalidDenom);
      }
      if k in nfts {
        return Some(N.NftAlreadyExists);
      }
      nfts := nfts[k := n];
      owners := owners + {N.OwnerKey(n.owner, k)};
      IncreaseSupply(k.denom);
      return None;
    }

    method MintNFT(k: N.Key, n: N.Nft, sender: Address) returns (err: Option<Error>)
      modifies this
      ensures Agrees(err, old(State()), State(), N.Mint(old(State()), k, n, sender))
    {
      if k.denom !in denoms {
        return Some(N.InvalidDenom);
      }
      if denoms[k.denom].creator != sender {
        return Some(N.Unauthorized);
      }
      err := MintNFTUnverified(k, n);
    }

    method TransferOwner(k: N.Key, src: Address, dst: Address) returns (err: Option<Error>)
      modifies this
      ensures Agrees(err, old(State()), State(), N.TransferOwner(old(State()), k, src, dst))
    {
      if k.denom !in denoms {
        return Some(N.InvalidDenom);
      }
      if k !in nfts {
        return Some(N.UnknownNft);
      }
      if nfts[k].owner != src {
        return Some(N.Unauthorized);
      }
      nfts := nfts[k := nfts[k].(owner := dst)];
      owners := owners - {N.OwnerKey(src, k)};
      owners := owners + {N.OwnerKey(dst, k)};
      return None;
    }

    method BurnNFTUnverified(k: N.Key, owner: Address) returns (err: Option<Error>)
      modifies this
      ensures Agrees(err, old(State()), State(), N.BurnUnverified(old(State()), k, owner))
    {
      if k.denom !in denoms {
        return Some(N.InvalidDenom);
      }
      if k !in nfts {
        return Some(N.UnknownNft);
      }
      if nfts[k].owner != owner {
        return Some(N.Unauthorized);
      }
      nfts := nfts - {k};
      owners := owners - {N.OwnerKey(owner, k)};
      DecreaseSupply(k.denom);
      return None;
    }

    method BurnNFT(k: N.Key, owner: Address) returns (err: Option<Error>)
      modifies this
      ensures Agrees(err, old(State()), State(), N.Burn(old(State()), k, owner))
    {
      if k.denom !in denoms {
        return Some(N.InvalidDenom);
      }
      if k !in nfts {
        return Some(N.UnknownNft);
      }
      if nfts[k].owner != owner {
        return Some(N.Unauthorized);
      }
      if denoms[k.denom].creator != owner {
        return Some(N.Unauthorized);
      }
      nfts := nfts - {k};
      owners := owners - {N.OwnerKey(owner, k)};
      DecreaseSupply(k.denom);
      return None;
    }

    /** Fields given as None keep their value. */
    method EditNFT(k: N.Key, name: Option<Text>, uri: Option<Text>, data: Option<Text>, owner: Address)
      returns (err: Option<Error>)
      modifies this
      ensures Agrees(err, old(State()), State(), N.Edit(old(State()), k, name, uri, data, owner))
    {
      if k.denom !in denoms {
        return Some(N.InvalidDenom);
      }
      if k !in nfts {
        return Some(N.UnknownNft);
      }
      if nfts[k].owner != owner {
        return Some(N.Unauthorized);
      }
      if denoms[k.denom].creator != owner {
        return Some(N.Unauthorized);
      }
      var token := nfts[k];
      if name.Some? {
        token := token.(name := name.value);
      }
      if uri.Some? {
        token := token.(uri := uri.value);
      }
      if data.Some? {
        token := token.(data := data.value);
      }
      nfts := nfts[k := token];
      return None;
    }

    // ---- genesis ----

    method SetGenesisCollection(c: G.Collection) returns (err: Option<Error>)
      modifies this
      ensures match G.ReplayTokens(old(State()), c.denom.id, c.tokens)
              case Ok(s) => err == None && State() == s
              case Err(e) => err == Some(e)
    {
      ghost var was := State();
      for i := 0 to |c.tokens|
        invariant G.ReplayTokens(was, c.denom.id, c.tokens[..i]) == Ok(State())
      {
        var token := c.tokens[i];
        NextToken(was, c.denom.id, c.tokens, i);
        err := MintNFTUnverified(N.Key(c.denom.id, token.id), token.nft);
        if err.Some? {
          FailedTokens(was, c.denom.id, c.tokens, i + 1);
          return;
        }
      }
      assert c.tokens[..|c.tokens|] == c.tokens;
      return None;
    }

    /** A failing import panics; what it wrote before is discarded with the chain's start. */
    method InitGenesis(cs: seq<G.Collection>) returns (err: Option<Error>)
      modifies this
      ensures match G.Init(old(State()), cs)
              case Ok(s) => err == None && State() == s
              case Err(e) => err == Some(e)
    {
      var valid := ValidateGenesis(cs);
      if !valid {
        return Some(N.Panic);
      }
      ghost var was := State();
      for i := 0 to |cs|
        invariant G.Replay(was, cs[..i]) == Ok(State())
      {
        G.ReplayAppend(was, cs, i);
        err := SetDenom(cs[i].denom);
        if err.None? {
          err := SetGenesisCollection(cs[i]);
        }
        if err.Some? {
          FailedCollections(was, cs, i + 1);
          return;
        }
      }
      assert cs[..|cs|] == cs;
      return None;
    }

    /** Iterates over the keys with the class's prefix, in their order. */
    method GetNFTs(denom: Text) returns (tokens: seq<G.Token>)
      ensures G.Lists(State(), denom, tokens) && G.ListsInOrder(State(), denom, tokens)
    {
      tokens := [];
      ghost var keys: seq<N.Key> := [];
      var rest := set k | k in nfts && K.Scanned(denom, k);
      while rest != {}
        invariant Listing(State(), denom, keys, rest) && tokens == G.TokensAt(State(), keys)
        decreases |rest|
      {
        LeastKey(rest);
        var k :| k in rest && forall j :: j in rest ==> !Less(K.KeyNft(j), K.KeyNft(k));
        tokens := tokens + [G.Token(k.token, nfts[k])];
        ListingStep(State(), denom, keys, rest, k);
        keys := keys + [k];
        rest := rest - {k};
      }
      ListingDone(State(), denom, keys);
    }

    method ExportGenesis() returns (cs: seq<G.Collection>)
      requires N.IndicesInverse(State())
      ensures G.ExportsInOrder(State(), cs)
    {
      cs := [];
      var rest := denoms.Keys;
      while rest != {}
        invariant Exporting(State(), cs, rest)
        decreases |rest|
      {
        LeastId(rest);
        assert exists id :: id in rest && forall j :: j in rest ==> !Less(j, id) by {
          var l :| Least(rest, l);
        }
        var id :| id in rest && forall j :: j in rest ==> !Less(j, id);
        var tokens := GetNFTs(denoms[id].id);
        ExportStep(State(), cs, rest, id, tokens);
        cs := cs + [G.Collection(denoms[id], tokens)];
        rest := rest - {id};
      }
      ExportDone(State(), cs);
    }
  }

  lemma ExportDone(s: N.Store, cs: seq<G.Collection>)
    requires Exporting(s, cs, {})
    ensures G.ExportsInOrder(s, cs)
  {
  }

  ghost predicate Least(ids: set<Text>, id: Text) {
    id in ids && forall j :: j in ids ==> !Less(j, id)
  }

  lemma LesserIsLeast(ids: set<Text>, x: Text, y: Text)
    requires x in ids && Least(ids - {x}, y) && Less(x, y)
    ensures Least(ids, x)
  {
    LessTotal(x, y);
    LessTotal(x, x);
    forall j | j in ids
      ensures !Less(j, x)
    {
      if j != x {
        LessTransitive(x, y, j);
      }
    }
  }

  lemma {:induction false} LeastId(ids: set<Text>)
    requires ids != {}
    ensures exists id :: Least(ids, id)
  {
    var x :| x in ids;
    if ids == {x} {
      LessTotal(x, x);
      assert Least(ids, x);
    } else {
      LeastId(ids - {x});
      var y :| Least(ids - {x}, y);
      if Less(x, y) {
        LesserIsLeast(ids, x, y);
      } else {
        assert Least(ids, y);
      }
    }
  }

  lemma LeastKey(keys: set<N.Key>)
    requires keys != {}
    ensures exists k :: k in keys && forall j :: j in keys ==> !Less(K.KeyNft(j), K.KeyNft(k))
  {
    var texts := set k | k in keys :: K.KeyNft(k);
    var k0 :| k0 in keys;
    assert K.KeyNft(k0) in texts;
    LeastId(texts);
    var t :| Least(texts, t);
    var k :| k in keys && K.KeyNft(k) == t;
    forall j | j in keys
      ensures !Less(K.KeyNft(j), K.KeyNft(k))
    {
      assert K.KeyNft(j) in texts;
    }
  }

  /** The keys found so far, in order, and those that remain behind them. */
  ghost predicate Listing(s: N.Store, denom: Text, keys: seq<N.Key>, rest: set<N.Key>) {
    && Distinct(keys) && G.KeysAscend(keys)
    && (forall k :: k in s.nfts && K.Scanned(denom, k) <==> k in rest || k in keys)
    && (forall i, k :: 0 <= i < |keys| && k in rest ==> keys[i] != k && !Less(K.KeyNft(k), K.KeyNft(keys[i])))
  }

  lemma ListingStep(s: N.Store, denom: Text, keys: seq<N.Key>, rest: set<N.Key>, k: N.Key)
    requires Listing(s, denom, keys, rest) && k in rest
    requires forall j :: j in rest ==> !Less(K.KeyNft(j), K.KeyNft(k))
    ensures Listing(s, denom, keys + [k], rest - {k})
    ensures G.TokensAt(s, keys + [k]) == G.TokensAt(s, keys) + [G.Token(k.token, s.nfts[k])]
  {
  }

  lemma ListingDone(s: N.Store, denom: Text, keys: seq<N.Key>)
    requires Listing(s, denom, keys, {})
    ensures G.Lists(s, denom, G.TokensAt(s, keys)) && G.ListsInOrder(s, denom, G.TokensAt(s, keys))
  {
    assert G.Scan(s, denom, keys) && G.KeysAscend(keys);
  }

  ghost predicate Exported(s: N.Store, c: G.Collection, rest: set<Text>) {
    && c.denom.id in s.denoms && s.denoms[c.denom.id] == c.denom && c.denom.id !in rest
    && G.Lists(s, c.denom.id, c.tokens) && G.ListsInOrder(s, c.denom.id, c.tokens)
  }

  /** All classes but the remaining ones are exported, in order. */
  ghost predicate Exporting(s: N.Store, cs: seq<G.Collection>, rest: set<Text>) {
    && rest <= s.denoms.Keys && G.IdsAscend(cs)
    && (forall i, j :: 0 <= i < j < |cs| ==> cs[i].denom.id != cs[j].denom.id)
    && (forall i :: 0 <= i < |cs| ==> Exported(s, cs[i], rest))
    && (forall id :: id in s.denoms ==> id in rest || exists i :: 0 <= i < |cs| && cs[i].denom.id == id)
    && (forall i, id :: 0 <= i < |cs| && id in rest ==> !Less(id, cs[i].denom.id))
  }

  lemma IdsAscendStep(cs: seq<G.Collection>, rest: set<Text>, c: G.Collection)
    requires G.IdsAscend(cs) && c.denom.id in rest
    requires forall i, id :: 0 <= i < |cs| && id in rest ==> !Less(id, cs[i].denom.id)
    requires forall j :: j in rest ==> !Less(j, c.denom.id)
    ensures G.IdsAscend(cs + [c])
    ensures forall i, id :: 0 <= i < |cs| + 1 && id in rest - {c.denom.id} ==> !Less(id, (cs + [c])[i].denom.id)
  {
    assert forall i :: 0 <= i < |cs| ==> (cs + [c])[i] == cs[i];
  }

  lemma ExportedStays(s: N.Store, cs: seq<G.Collection>, rest: set<Text>, c: G.Collection, x: Text)
    requires x in rest || exists i :: 0 <= i < |cs| && cs[i].denom.id == x
    ensures x in rest - {c.denom.id} || exists i :: 0 <= i < |cs + [c]| && (cs + [c])[i].denom.id == x
  {
    if x == c.denom.id {
      assert (cs + [c])[|cs|].denom.id == x;
    } else if x !in rest {
      var i :| 0 <= i < |cs| && cs[i].denom.id == x;
      assert (cs + [c])[i].denom.id == x;
    }
  }

  lemma ExportedStep(s: N.Store, cs: seq<G.Collection>, rest: set<Text>, c: G.Collection)
    requires forall i :: 0 <= i < |cs| ==> Exported(s, cs[i], rest)
    requires Exported(s, c, rest - {c.denom.id}) && c.denom.id in rest
    requires forall i, j :: 0 <= i < j < |cs| ==> cs[i].denom.id != cs[j].denom.id
    ensures forall i :: 0 <= i < |cs + [c]| ==> Exported(s, (cs + [c])[i], rest - {c.denom.id})
    ensures forall i, j :: 0 <= i < j < |cs + [c]| ==> (cs + [c])[i].denom.id != (cs + [c])[j].denom.id
  {
    assert forall i :: 0 <= i < |cs| ==> (cs + [c])[i] == cs[i];
  }

  lemma ExportStep(s: N.Store, cs: seq<G.Collection>, rest: set<Text>, id: Text, ts: seq<G.Token>)
    requires Exporting(s, cs, rest) && id in rest && s.denoms[id].id == id
    requires G.Lists(s, id, ts) && G.ListsInOrder(s, id, ts)
    requires forall j :: j in rest ==> !Less(j, id)
    ensures Exporting(s, cs + [G.Collection(s.denoms[id], ts)], rest - {id})
  {
    var c := G.Collection(s.denoms[id], ts);
    IdsAscendStep(cs, rest, c);
    ExportedStep(s, cs, rest, c);
    forall x | x in s.denoms
      ensures x in rest - {id} || exists i :: 0 <= i < |cs + [c]| && (cs + [c])[i].denom.id == x
    {
      ExportedStays(s, cs, rest, c, x);
    }
  }

  method ValidateGenesis(cs: seq<G.Collection>) returns (ok: bool)
    ensures ok <==> G.ValidGenesis(cs)
    ensures ok <==>
      forall i :: 0 <= i < |cs| ==>
        && K.ValidId(cs[i].denom.name)
        && forall j :: 0 <= j < |cs[i].tokens| ==>
             var t := cs[i].tokens[j]; t.nft.owner != [] && K.ValidId(t.id) && |t.nft.uri| <= 256
  {
    for i := 0 to |cs|
      invariant forall j :: 0 <= j < i ==> G.ValidCollection(cs[j])
    {
      if !K.ValidId(cs[i].denom.name) {
        assert !G.ValidCollection(cs[i]);
        return false;
      }
      var tokens := cs[i].tokens;
      for j := 0 to |tokens|
        invariant forall l :: 0 <= l < j ==> G.ValidToken(tokens[l])
      {
        if tokens[j].nft.owner == [] || !K.ValidId(tokens[j].id) || |tokens[j].nft.uri| > K.MAX_TOKEN_URI_LEN {
          assert !G.ValidToken(tokens[j]) && !G.ValidCollection(cs[i]);
          return false;
        }
      }
    }
    return true;
  }

  lemma NextToken(s: N.Store, denom: Text, ts: seq<G.Token>, i: nat)
    requires i < |ts| && G.ReplayTokens(s, denom, ts[..i]).Ok?
    ensures G.ReplayTokens(s, denom, ts[..i + 1]) ==
      N.MintUnverified(G.ReplayTokens(s, denom, ts[..i]).value, N.Key(denom, ts[i].id), ts[i].nft)
  {
    assert ts[..i + 1][..i] == ts[..i];
  }

  lemma {:induction false} FailedTokens(s: N.Store, denom: Text, ts: seq<G.Token>, i: nat)
    requires i <= |ts| && G.ReplayTokens(s, denom, ts[..i]).Err?
    ensures G.ReplayTokens(s, denom, ts) == G.ReplayTokens(s, denom, ts[..i])
    decreases |ts|
  {
    if i == |ts| {
      assert ts[..i] == ts;
    } else {
      var front := ts[..|ts| - 1];
      assert front[..i] == ts[..i];
      FailedTokens(s, denom, front, i);
    }
  }

  lemma {:induction false} FailedCollections(s: N.Store, cs: seq<G.Collection>, i: nat)
    requires i <= |cs| && G.Replay(s, cs[..i]).Err?
    ensures G.Replay(s, cs) == G.Replay(s, cs[..i])
    decreases |cs|
  {
    if i == |cs| {
      assert cs[..i] == cs;
    } else {
      var front := cs[..|cs| - 1];
      assert front[..i] == cs[..i];
      FailedCollections(s, front, i);
    }
  }

  // ---- the transfer keeper ------------------------------------------------------------------------------

  class TransferKeeper {
    const nft: NftKeeper
    const trace: R.TraceKeeper
    const sha: Text -> Digest
    const read: Text -> Option<Address>
    const show: Address -> Text
    /** The channels of this chain, with the port and channel at their other end. */
    const channels: map<(Text, Text), (Text, Text)>

    constructor (nft: NftKeeper, trace: R.TraceKeeper, read: Text -> Option<Address>, show: Address -> Text,
                 channels: map<(Text, Text), (Text, Text)>)
      requires R.Readable(trace.traces)
      ensures this.nft == nft && this.trace == trace && this.read == read && this.show == show
      ensures this.channels == channels && Valid() && State() == T.Chain(nft.State(), R.View(trace.traces))
    {
      this.nft, this.trace, this.sha, this.read, this.show, this.channels := nft, trace, trace.sha, read, show, channels;
    }

    /** Every stored trace decodes. */
    ghost predicate Valid()
      reads trace
    {
      trace.sha == sha && R.Readable(trace.traces)
    }

    /** The chain that the stored tokens and the stored bytes of the traces stand for. */
    ghost function State(): T.Chain
      requires Valid()
      reads nft, trace
    {
      T.Chain(nft.State(), R.View(trace.traces))
    }

    method ClassPathFromHash(id: Text) returns (r: Result<Text, Error>)
      requires Valid() && HasPrefix(id, IBC_PREFIX)
      ensures r == T.ClassPathFromHash(State().traces, id)
    {
      var hash := T.ParseHexHash(id[|IBC_PREFIX|..]);
      if hash.None? {
        return Err(N.InvalidClassId);
      }
      var found := trace.GetClassTrace(hash.value);
      if found.None? {
        return Err(N.TraceNotFound);
      }
      return Ok(FullClassPath(found.value));
    }

    /** Escrow or burn the tokens, in order, stopping at the first that fails. */
    method TakeTokens(denom: Text, ids: seq<Text>, sender: Address, away: bool, escrow: Address)
      returns (err: Option<Error>, uris: seq<Text>)
      modifies nft
      ensures var spec := T.TakeAll(old(nft.State()), denom, ids, sender, away, escrow, []);
              && (spec.Ok? ==> err.None? && (nft.State(), uris) == spec.value)
              && (spec.Err? ==> err == Some(spec.error))
    {
      uris := [];
      for i := 0 to |ids|
        invariant T.TakeAll(old(nft.State()), denom, ids, sender, away, escrow, []) ==
                  T.TakeAll(nft.State(), denom, ids[i..], sender, away, escrow, uris)
      {
        var k := N.Key(denom, ids[i]);
        assert ids[i..][1..] == ids[i + 1..];
        if k !in nft.nfts {
          return Some(N.UnknownNft), uris;
        }
        var token := nft.nfts[k];
        if sender != token.owner {
          return Some(N.Unauthorized), uris;
        }
        if away {
          err := nft.TransferOwner(k, sender, escrow);
        } else {
          err := nft.BurnNFTUnverified(k, sender);
        }
        if err.Some? {
          return err, uris;
        }
        uris := uris + [token.uri];
      }
      err := None;
    }

    method TransferTokens(denom: Text, ids: seq<Text>, src: Address, dst: Address) returns (err: Option<Error>)
      modifies nft
      ensures var spec := T.TransferAll(old(nft.State()), denom, ids, src, dst);
              && (spec.Ok? ==> err.None? && nft.State() == spec.value)
              && (spec.Err? ==> err == Some(spec.error))
    {
      for i := 0 to |ids|
        invariant T.TransferAll(old(nft.State()), denom, ids, src, dst) ==
                  T.TransferAll(nft.State(), denom, ids[i..], src, dst)
      {
        assert ids[i..][1..] == ids[i + 1..];
        err := nft.TransferOwner(N.Key(denom, ids[i]), src, dst);
        if err.Some? {
          return err;
        }
      }
      err := None;
    }

    method MintTokens(denom: Text, ids: seq<Text>, uris: seq<Text>, creator: Address, owner: Address)
      returns (err: Option<Error>)
      modifies nft
      ensures var spec := T.MintAll(old(nft.State()), denom, ids, uris, creator, owner);
              && (spec.Ok? ==> err.None? && nft.State() == spec.value)
              && (spec.Err? ==> err == Some(spec.error))
    {
      for i := 0 to |ids|
        invariant i <= |uris|
        invariant T.MintAll(old(nft.State()), denom, ids, uris, creator, owner) ==
                  T.MintAll(nft.State(), denom, ids[i..], uris[i..], creator, owner)
      {
        assert ids[i..][1..] == ids[i + 1..];
        if i == |uris| {
          return Some(N.Panic);
        }
        assert uris[i..][1..] == uris[i + 1..];
        err := nft.MintNFT(N.Key(denom, ids[i]), T.Voucher(uris[i], owner), creator);
        if err.Some? {
          return err;
        }
      }
      err := None;
    }

    method CreateOutgoingPacket(port: Text, channel: Text, denom: Text, ids: seq<Text>, sender: Address, receiver: Text)
      returns (r: Result<T.PacketData, Error>)
      requires Valid()
      modifies nft
      ensures Valid()
      ensures var spec := T.CreateOutgoing(sha, old(State()), port, channel, denom, ids, sender, show(sender), receiver);
              && (spec.Ok? ==> r == Ok(spec.value.1) && State() == spec.value.0)
              && (spec.Err? ==> r == Err(spec.error))
    {
      if denom !in nft.denoms {
        return Err(N.InvalidDenom);
      }
      var uri := nft.denoms[denom].uri;
      var path := denom;
      if HasPrefix(denom, IBC_PREFIX) {
        var resolved := ClassPathFromHash(denom);
        if resolved.Err? {
          return Err(resolved.error);
        }
        path := resolved.value;
      }
      var away := IsAwayFromOrigin(port, channel, path);
      var err, uris := TakeTokens(denom, ids, sender, away, EscrowAddress(sha, port, channel));
      if err.Some? {
        return Err(err.value);
      }
      return Ok(T.PacketData(path, uri, ids, uris, show(sender), receiver));
    }

    method ProcessReceivedPacket(srcPort: Text, srcChannel: Text, dstPort: Text, dstChannel: Text, d: T.PacketData)
      returns (err: Option<Error>)
      requires Valid() && Fits(dstPort, dstChannel, d)
      modifies nft, trace
      ensures Valid()
      ensures var spec := T.ProcessReceived(sha, read, old(State()), srcPort, srcChannel, dstPort, dstChannel, d);
              && (spec.Ok? ==> err.None? && State() == spec.value)
              && (spec.Err? ==> err == Some(spec.error))
    {
      var receiver := read(d.receiver);
      if receiver.None? {
        return Some(N.InvalidAddress);
      }
      var escrow := EscrowAddress(sha, dstPort, dstChannel);
      if IsAwayFromOrigin(srcPort, srcChannel, d.classId) {
        var classTrace := ParseClassTrace(ClassPrefix(dstPort, dstChannel) + d.classId);
        if sha(FullClassPath(classTrace)) !in trace.traces {
          trace.SetClassTrace(classTrace);
        }
        var id := IbcClassId(sha, classTrace);
        if id !in nft.denoms {
          err := nft.IssueDenom(id, id, [], d.classUri, escrow);
          if err.Some? {
            return err;
          }
        }
        err := MintTokens(id, d.tokenIds, d.tokenUris, escrow, receiver.value);
      } else {
        var path := RemoveClassPrefix(srcPort, srcChannel, d.classId);
        err := TransferTokens(ClassId(sha, path), d.tokenIds, escrow, receiver.value);
      }
    }

    method RefundPacketToken(srcPort: Text, srcChannel: Text, d: T.PacketData) returns (err: Option<Error>)
      requires Valid()
      modifies nft
      ensures Valid()
      ensures var spec := T.Refund(sha, read, old(State()), srcPort, srcChannel, d);
              && (spec.Ok? ==> err.None? && State() == spec.value)
              && (spec.Err? ==> err == Some(spec.error))
    {
      var sender := read(d.sender);
      if sender.None? {
        return Some(N.InvalidAddress);
      }
      var id := IbcClassId(sha, ParseClassTrace(d.classId));
      var escrow := EscrowAddress(sha, srcPort, srcChannel);
      if IsAwayFromOrigin(srcPort, srcChannel, d.classId) {
        err := TransferTokens(id, d.tokenIds, escrow, sender.value);
      } else {
        err := MintTokens(id, d.tokenIds, d.tokenUris, escrow, sender.value);
      }
    }

    // ---- handlers, each run as a transaction: on an error the stores are as before -------------------------

    /** Nothing is sent from a foreign port, over a channel that does not exist or has no next sequence, or when IBC
        core refuses the packet. */
    method SendTransfer(port: Text, channel: Text, denom: Text, ids: seq<Text>, sender: Address, receiver: Text,
                        sequence: Option<nat>, accepts: T.PacketData -> bool)
      returns (r: Result<T.PacketData, Error>)
      requires Valid()
      modifies nft
      ensures Valid()
      ensures r.Err? ==> State() == old(State())
      ensures r.Ok? ==> port == Ascii("nft")
      ensures var spec := T.CreateOutgoing(sha, old(State()), port, channel, denom, ids, sender, show(sender), receiver);
              && (r.Ok? <==>
                    && port == W.PORT_ID && (port, channel) in channels && sequence.Some?
                    && spec.Ok? && accepts(spec.value.1))
              && (r.Ok? ==> spec == Ok((State(), r.value)))
    {
      if port != W.PORT_ID {
        return Err(N.InvalidPacket);
      }
      if (port, channel) !in channels {
        return Err(N.InvalidPacket);
      }
      if sequence.None? {
        return Err(N.InvalidPacket);
      }
      var before := nft.State();
      r := CreateOutgoingPacket(port, channel, denom, ids, sender, receiver);
      if r.Err? {
        nft.Reset(before);
        return;
      }
      if !accepts(r.value) {
        nft.Reset(before);
        return Err(N.InvalidPacket);
      }
    }

    /** The acknowledgement is a success exactly when the packet could be processed. */
    method OnRecvPacket(srcPort: Text, srcChannel: Text, dstPort: Text, dstChannel: Text, d: T.PacketData)
      returns (success: bool)
      requires Valid() && Fits(dstPort, dstChannel, d)
      modifies nft, trace
      ensures Valid()
      ensures var spec := T.OnRecv(sha, read, old(State()), srcPort, srcChannel, dstPort, dstChannel, d);
              success == spec.Ok? && State() == if spec.Ok? then spec.value else old(State())
    {
      var invalid := T.ValidateBasic(read, d);
      if invalid.Some? {
        return false;
      }
      var before, beforeTraces := nft.State(), trace.traces;
      var err := ProcessReceivedPacket(srcPort, srcChannel, dstPort, dstChannel, d);
      if err.Some? {
        nft.Reset(before);
        trace.Reset(beforeTraces);
      }
      return err.None?;
    }

    /** An error acknowledgement refunds the sender, a success changes nothing. */
    method OnAcknowledgementPacket(srcPort: Text, srcChannel: Text, d: T.PacketData, success: bool)
      returns (err: Option<Error>)
      requires Valid()
      modifies nft
      ensures Valid()
      ensures var spec := T.Refund(sha, read, old(State()), srcPort, srcChannel, d);
              if success then err.None? && State() == old(State())
              else err.None? == spec.Ok? && State() == if spec.Ok? then spec.value else old(State())
    {
      if success {
        return None;
      }
      var before := nft.State();
      err := RefundPacketToken(srcPort, srcChannel, d);
      if err.Some? {
        nft.Reset(before);
      }
    }

    method OnTimeoutPacket(srcPort: Text, srcChannel: Text, d: T.PacketData) returns (err: Option<Error>)
      requires Valid()
      modifies nft
      ensures Valid()
      ensures var spec := T.Refund(sha, read, old(State()), srcPort, srcChannel, d);
              err.None? == spec.Ok? && State() == if spec.Ok? then spec.value else old(State())
    {
      var before := nft.State();
      err := RefundPacketToken(srcPort, srcChannel, d);
      if err.Some? {
        nft.Reset(before);
      }
    }
  }

  /** The trace of a received class fits in a byte slice. */
  predicate Fits(port: Text, channel: Text, d: T.PacketData) {
    M.TraceSize(ParseClassTrace(ClassPrefix(port, channel) + d.classId)) < TWO63
  }
}
