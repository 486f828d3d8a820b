/** Exporting the NFT module's store as collections and replaying them into an empty one. */
module NftGenesis {
  import opened Bytes
  import opened ClassTraces
  import opened NftStore
  import opened Keys

  datatype Token = Token(id: Text, nft: Nft)

  datatype Collection = Collection(denom: Denom, tokens: seq<Token>)

  // ---- validation ----------------------------------------------------------------------------------------

  predicate ValidToken(t: Token) {
    t.nft.owner != [] && ValidId(t.id) && |t.nft.uri| <= MAX_TOKEN_URI_LEN
  }

  /** The rule for ids is applied to the name. */
  predicate ValidCollection(c: Collection) {
    ValidId(c.denom.name) && forall i :: 0 <= i < |c.tokens| ==> ValidToken(c.tokens[i])
  }

  predicate ValidGenesis(cs: seq<Collection>) {
    forall i :: 0 <= i < |cs| ==> ValidCollection(cs[i])
  }

  // ---- replay --------------------------------------------------------------------------------------------

  function ReplayTokens(s: Store, denom: Text, ts: seq<Token>): Result<Store, Error> {
    if ts == [] then Ok(s)
    else
      var last := ts[|ts| - 1];
      match ReplayTokens(s, denom, ts[..|ts| - 1])
      case Err(e) => Err(e)
      case Ok(s') => MintUnverified(s', Key(denom, last.id), last.nft)
  }

  function ReplayCollection(s: Store, c: Collection): Result<Store, Error> {
    match SetDenom(s, c.denom)
    case Err(e) => Err(e)
    case Ok(s') => ReplayTokens(s', c.denom.id, c.tokens)
  }

  function Replay(s: Store, cs: seq<Collection>): Result<Store, Error> {
    if cs == [] then Ok(s)
    else
      match Replay(s, cs[..|cs| - 1])
      case Err(e) => Err(e)
      case Ok(s') => ReplayCollection(s', cs[|cs| - 1])
  }

  function Init(s: Store, cs: seq<Collection>): Result<Store, Error> {
    if !ValidGenesis(cs) then Err(Panic) else Replay(s, cs)
  }

  // ---- export --------------------------------------------------------------------------------------------

  /** The keys found by a prefix scan of a class, each once, in any order. */
  ghost predicate Scan(s: Store, denom: Text, keys: seq<Key>) {
    && Distinct(keys)
    && (forall i :: 0 <= i < |keys| ==> keys[i] in s.nfts && Scanned(denom, keys[i]))
    && (forall k :: k in s.nfts && Scanned(denom, k) ==> k in keys)
  }

  ghost function TokensAt(s: Store, keys: seq<Key>): seq<Token>
    requires forall i :: 0 <= i < |keys| ==> keys[i] in s.nfts
  {
    seq(|keys|, i requires 0 <= i < |keys| => Token(keys[i].token, s.nfts[keys[i]]))
  }

  ghost predicate Lists(s: Store, denom: Text, ts: seq<Token>) {
    exists keys :: Scan(s, denom, keys) && ts == TokensAt(s, keys)
  }

  /** One collection for each denom, in any order. */
  ghost predicate Exports(s: Store, cs: seq<Collection>) {
    && (forall i, j :: 0 <= i < j < |cs| ==> cs[i].denom.id != cs[j].denom.id)
    && (forall i :: 0 <= i < |cs| ==>
          && cs[i].denom.id in s.denoms && s.denoms[cs[i].denom.id] == cs[i].denom
          && Lists(s, cs[i].denom.id, cs[i].tokens))
    && (forall id :: id in s.denoms ==> exists i :: 0 <= i < |cs| && cs[i].denom.id == id)
  }

  // ---- what a replay does ----------------------------------------------------------------------------------

  ghost predicate DistinctIds(ts: seq<Token>) {
    forall i, j :: 0 <= i < j < |ts| ==> ts[i].id != ts[j].id
  }

  ghost predicate Listed(ts: seq<Token>, id: Text) {
    exists i :: 0 <= i < |ts| && ts[i].id == id
  }

  /** The tokens of the second store are those of the first and the listed ones. */
  ghost predicate Adds(s: map<Key, Nft>, denom: Text, ts: seq<Token>, s': map<Key, Nft>) {
    && (forall k :: k in s' <==> k in s || (k.denom == denom && Listed(ts, k.token)))
    && (forall k :: k in s ==> s'[k] == s[k])
    && (forall i :: 0 <= i < |ts| ==> Key(denom, ts[i].id) in s' && s'[Key(denom, ts[i].id)] == ts[i].nft)
  }

  lemma AddsOne(s: map<Key, Nft>, denom: Text, ts: seq<Token>, s': map<Key, Nft>, t: Token)
    requires Adds(s, denom, ts, s') && Key(denom, t.id) !in s'
    ensures Adds(s, denom, ts + [t], s'[Key(denom, t.id) := t.nft])
  {
    var us := ts + [t];
    assert us[|ts|] == t;
    assert forall i :: 0 <= i < |ts| ==> us[i] == ts[i];
  }

  lemma ListedLast(ts: seq<Token>, t: Token)
    ensures DistinctIds(ts + [t]) <==> DistinctIds(ts) && !Listed(ts, t.id)
  {
    var us := ts + [t];
    assert us[|ts|] == t;
    assert forall i :: 0 <= i < |ts| ==> us[i] == ts[i];
  }

  /** Replaying the tokens of a class that has none succeeds exactly when no id occurs twice, and adds them. */
  lemma {:induction false} ReplayTokensAdds(s: Store, denom: Text, ts: seq<Token>)
    requires denom in s.denoms
    requires forall k :: k in s.nfts ==> k.denom != denom
    ensures ReplayTokens(s, denom, ts).Ok? <==> DistinctIds(ts)
    ensures ReplayTokens(s, denom, ts).Ok? ==>
      var s' := ReplayTokens(s, denom, ts).value;
      s'.denoms == s.denoms && Adds(s.nfts, denom, ts, s'.nfts)
  {
    if ts != [] {
      var front, last := ts[..|ts| - 1], ts[|ts| - 1];
      assert ts == front + [last];
      ReplayTokensAdds(s, denom, front);
      ListedLast(front, last);
      if ReplayTokens(s, denom, front).Ok? {
        var s1 := ReplayTokens(s, denom, front).value;
        assert Key(denom, last.id) in s1.nfts <==> Listed(front, last.id);
        if Key(denom, last.id) !in s1.nfts {
          AddsOne(s.nfts, denom, front, s1.nfts, last);
        }
      }
    }
  }

  lemma {:induction false} ReplayTokensConsistent(s: Store, denom: Text, ts: seq<Token>)
    requires Consistent(s) && ReplayTokens(s, denom, ts).Ok?
    ensures Consistent(ReplayTokens(s, denom, ts).value)
  {
    if ts != [] {
      var front, last := ts[..|ts| - 1], ts[|ts| - 1];
      ReplayTokensConsistent(s, denom, front);
      MintKeepsConsistent(ReplayTokens(s, denom, front).value, Key(denom, last.id), last.nft);
    }
  }

  /** A replay keeps the indices, the owner index and the supply counters right. */
  lemma {:induction false} ReplayConsistent(s: Store, cs: seq<Collection>)
    requires Consistent(s) && Replay(s, cs).Ok?
    ensures Consistent(Replay(s, cs).value)
  {
    if cs != [] {
      var front, last := cs[..|cs| - 1], cs[|cs| - 1];
      ReplayConsistent(s, front);
      var s1 := Replay(s, front).value;
      SetDenomKeepsConsistent(s1, last.denom);
      ReplayTokensConsistent(SetDenom(s1, last.denom).value, last.denom.id, last.tokens);
    }
  }

  lemma EmptyConsistent()
    ensures Consistent(EMPTY)
  {
    forall d
      ensures TotalSupply(EMPTY, d) == |TokensOf(EMPTY, d)| % TWO64
    {
      assert TokensOf(EMPTY, d) == {};
    }
  }

  // ---- exact scans -------------------------------------------------------------------------------------------

  ghost predicate AdmissibleStore(s: Store) {
    && (forall d :: d in s.denoms ==> ValidId(d) || VoucherId(d))
    && (forall k :: k in s.nfts ==> Admissible(k))
  }

  /** No native class ibc beside voucher tokens. */
  ghost predicate ScansExact(s: Store) {
    IBC in s.denoms ==> forall k :: k in s.nfts ==> !VoucherId(k.denom)
  }

  lemma ExactScan(s: Store, denom: Text, ts: seq<Token>) returns (keys: seq<Key>)
    requires AdmissibleStore(s) && ScansExact(s) && denom in s.denoms && Lists(s, denom, ts)
    ensures Scan(s, denom, keys) && ts == TokensAt(s, keys)
    ensures forall k :: k in keys <==> k in s.nfts && k.denom == denom
    ensures DistinctIds(ts)
  {
    keys :| Scan(s, denom, keys) && ts == TokensAt(s, keys);
    forall k
      ensures k in keys <==> k in s.nfts && k.denom == denom
    {
      if k in s.nfts {
        ScanFinds(denom, k);
      }
    }
    forall i, j | 0 <= i < j < |ts|
      ensures ts[i].id != ts[j].id
    {
      assert keys[i] in keys && keys[j] in keys && keys[i] != keys[j];
    }
  }

  lemma ExactLists(s: Store, denom: Text, ts: seq<Token>)
    requires AdmissibleStore(s) && ScansExact(s) && denom in s.denoms && Lists(s, denom, ts)
    ensures DistinctIds(ts)
    ensures forall id :: Listed(ts, id) <==> Key(denom, id) in s.nfts
    ensures forall i :: 0 <= i < |ts| ==> Key(denom, ts[i].id) in s.nfts && s.nfts[Key(denom, ts[i].id)] == ts[i].nft
  {
    var keys := ExactScan(s, denom, ts);
    forall i | 0 <= i < |ts|
      ensures keys[i] == Key(denom, ts[i].id) && keys[i] in s.nfts && s.nfts[keys[i]] == ts[i].nft
    {
      assert keys[i] in keys;
    }
    forall id | Key(denom, id) in s.nfts
      ensures Listed(ts, id)
    {
      var i :| 0 <= i < |keys| && keys[i] == Key(denom, id);
      assert ts[i].id == id;
    }
  }

  // ---- exporting and importing --------------------------------------------------------------------------------

  ghost function Ids(cs: seq<Collection>): set<Text> {
    set i | 0 <= i < |cs| :: cs[i].denom.id
  }

  /** r holds the listed classes of s, with their tokens. */
  ghost predicate Rebuilt(s: Store, ids: set<Text>, r: Store) {
    && r.denoms.Keys == ids
    && (forall id :: id in ids ==> id in s.denoms && r.denoms[id] == s.denoms[id])
    && (forall k :: k in r.nfts <==> k in s.nfts && k.denom in ids)
    && (forall k :: k in r.nfts ==> r.nfts[k] == s.nfts[k])
  }

  lemma NextDenom(s: Store, ids: set<Text>, r: Store, d: Denom)
    requires IndicesInverse(s) && IndicesInverse(r) && Rebuilt(s, ids, r)
    requires d.id in s.denoms && s.denoms[d.id] == d && d.id !in ids
    ensures SetDenom(r, d).Ok?
    ensures forall k :: k in r.nfts ==> k.denom != d.id
  {
    forall id | id in r.denoms
      ensures r.denoms[id].name != d.name
    {
      assert s.names[s.denoms[id].name] == id && s.names[d.name] == d.id;
    }
  }

  lemma RebuiltTokens(s: map<Key, Nft>, r: map<Key, Nft>, ids: set<Text>, d: Text, ts: seq<Token>, r': map<Key, Nft>)
    requires forall k :: k in r <==> k in s && k.denom in ids
    requires forall k :: k in r ==> r[k] == s[k]
    requires Adds(r, d, ts, r')
    requires forall id :: Listed(ts, id) <==> Key(d, id) in s
    requires forall i :: 0 <= i < |ts| ==> Key(d, ts[i].id) in s && s[Key(d, ts[i].id)] == ts[i].nft
    ensures forall k :: k in r' <==> k in s && k.denom in ids + {d}
    ensures forall k :: k in r' ==> r'[k] == s[k]
  {
    forall k
      ensures k in r' <==> k in s && k.denom in ids + {d}
      ensures k in r' ==> r'[k] == s[k]
    {
      if k.denom == d {
        assert k == Key(d, k.token);
      }
    }
  }

  lemma RebuiltNext(s: Store, ids: set<Text>, r: Store, c: Collection, r': Store)
    requires AdmissibleStore(s) && ScansExact(s) && Rebuilt(s, ids, r)
    requires c.denom.id in s.denoms && s.denoms[c.denom.id] == c.denom && Lists(s, c.denom.id, c.tokens)
    requires r'.denoms == r.denoms[c.denom.id := c.denom]
    requires Adds(r.nfts, c.denom.id, c.tokens, r'.nfts)
    ensures Rebuilt(s, ids + {c.denom.id}, r')
  {
    ExactLists(s, c.denom.id, c.tokens);
    RebuiltTokens(s.nfts, r.nfts, ids, c.denom.id, c.tokens, r'.nfts);
  }

  lemma NextId(cs: seq<Collection>, i: nat)
    requires i < |cs|
    requires forall a, b :: 0 <= a < b < |cs| ==> cs[a].denom.id != cs[b].denom.id
    ensures cs[i].denom.id !in Ids(cs[..i]) && Ids(cs[..i + 1]) == Ids(cs[..i]) + {cs[i].denom.id}
  {
    assert cs[..i + 1] == cs[..i] + [cs[i]];
    forall id | id in Ids(cs[..i]) + {cs[i].denom.id}
      ensures id in Ids(cs[..i + 1])
    {
      if id == cs[i].denom.id {
        assert cs[..i + 1][i].denom.id == id;
      } else {
        var j :| 0 <= j < i && cs[..i][j].denom.id == id;
        assert cs[..i + 1][j].denom.id == id;
      }
    }
  }

  /** Replaying one more class of a store into what has been rebuilt of it. */
  lemma ReplayNext(s: Store, ids: set<Text>, r: Store, c: Collection)
    requires Consistent(s) && AdmissibleStore(s) && ScansExact(s) && Consistent(r) && Rebuilt(s, ids, r)
    requires c.denom.id in s.denoms && s.denoms[c.denom.id] == c.denom && c.denom.id !in ids
    requires Lists(s, c.denom.id, c.tokens)
    ensures ReplayCollection(r, c).Ok? && Consistent(ReplayCollection(r, c).value)
    ensures Rebuilt(s, ids + {c.denom.id}, ReplayCollection(r, c).value)
  {
    NextDenom(s, ids, r, c.denom);
    var r1 := SetDenom(r, c.denom).value;
    SetDenomKeepsConsistent(r, c.denom);
    assert DistinctIds(c.tokens) by { ExactLists(s, c.denom.id, c.tokens); }
    ReplayTokensAdds(r1, c.denom.id, c.tokens);
    ReplayTokensConsistent(r1, c.denom.id, c.tokens);
    RebuiltNext(s, ids, r, c, ReplayTokens(r1, c.denom.id, c.tokens).value);
  }

  lemma ReplayLast(s: Store, cs: seq<Collection>, i: nat, r: Store)
    requires Consistent(s) && AdmissibleStore(s) && ScansExact(s) && Exports(s, cs) && i < |cs|
    requires Replay(EMPTY, cs[..i]) == Ok(r) && Consistent(r) && Rebuilt(s, Ids(cs[..i]), r)
    ensures Replay(EMPTY, cs[..i + 1]).Ok? && Consistent(Replay(EMPTY, cs[..i + 1]).value)
    ensures Rebuilt(s, Ids(cs[..i + 1]), Replay(EMPTY, cs[..i + 1]).value)
  {
    NextId(cs, i);
    ReplayNext(s, Ids(cs[..i]), r, cs[i]);
    ReplayAppend(EMPTY, cs, i);
  }

  lemma ReplayAppend(s: Store, cs: seq<Collection>, i: nat)
    requires i < |cs| && Replay(s, cs[..i]).Ok?
    ensures Replay(s, cs[..i + 1]) == ReplayCollection(Replay(s, cs[..i]).value, cs[i])
  {
    assert cs[..i + 1][..i] == cs[..i];
  }

  /** Every prefix of an export replays and rebuilds its classes. */
  lemma {:induction false} ReplayPrefix(s: Store, cs: seq<Collection>, i: nat)
    requires Consistent(s) && AdmissibleStore(s) && ScansExact(s) && Exports(s, cs) && i <= |cs|
    ensures Replay(EMPTY, cs[..i]).Ok? && Consistent(Replay(EMPTY, cs[..i]).value)
    ensures Rebuilt(s, Ids(cs[..i]), Replay(EMPTY, cs[..i]).value)
  {
    if i == 0 {
      EmptyConsistent();
    } else {
      ReplayPrefix(s, cs, i - 1);
      ReplayLast(s, cs, i - 1, Replay(EMPTY, cs[..i - 1]).value);
    }
  }

  lemma AllIds(s: Store, cs: seq<Collection>)
    requires Exports(s, cs)
    ensures Ids(cs) == s.denoms.Keys
  {
    forall id | id in s.denoms
      ensures id in Ids(cs)
    {
      var i :| 0 <= i < |cs| && cs[i].denom.id == id;
    }
  }

  lemma RebuiltAll(s: Store, r: Store)
    requires Rebuilt(s, s.denoms.Keys, r)
    requires forall k :: k in s.nfts ==> k.denom in s.denoms
    ensures r.denoms == s.denoms && r.nfts == s.nfts
  {
  }

  /** Replaying an export never errs and rebuilds both indices, the tokens, the owner index and the supplies. */
  lemma ReplayRestores(s: Store, cs: seq<Collection>)
    requires Consistent(s) && AdmissibleStore(s) && ScansExact(s) && Exports(s, cs)
    ensures Replay(EMPTY, cs).Ok? && SameContents(s, Replay(EMPTY, cs).value)
  {
    ReplayPrefix(s, cs, |cs|);
    assert cs[..|cs|] == cs;
    AllIds(s, cs);
    RebuiltAll(s, Replay(EMPTY, cs).value);
    Determined(s, Replay(EMPTY, cs).value);
  }

  lemma {:induction false} ReplayTokensGrows(s: Store, denom: Text, ts: seq<Token>, i: nat)
    requires ReplayTokens(s, denom, ts).Ok?
    ensures s.nfts.Keys <= ReplayTokens(s, denom, ts).value.nfts.Keys
    ensures i < |ts| ==> Key(denom, ts[i].id) in ReplayTokens(s, denom, ts).value.nfts
    ensures i < |ts| ==> Key(denom, ts[i].id) !in s.nfts
  {
    if ts != [] {
      ReplayTokensGrows(s, denom, ts[..|ts| - 1], i);
    }
  }

  lemma {:induction false} ReplayTokensDistinct(s: Store, denom: Text, ts: seq<Token>)
    requires ReplayTokens(s, denom, ts).Ok?
    ensures DistinctIds(ts)
  {
    if ts != [] {
      var front, last := ts[..|ts| - 1], ts[|ts| - 1];
      ReplayTokensDistinct(s, denom, front);
      forall i | 0 <= i < |front|
        ensures ts[i].id != last.id
      {
        ReplayTokensGrows(s, denom, front, i);
      }
    }
  }

  /** A successful replay listed no id twice in a class, and holds every listed token. */
  lemma {:induction false} ReplayHolds(cs: seq<Collection>, i: nat, j: nat)
    requires Replay(EMPTY, cs).Ok? && i < |cs| && j < |cs[i].tokens|
    ensures DistinctIds(cs[i].tokens)
    ensures Key(cs[i].denom.id, cs[i].tokens[j].id) in Replay(EMPTY, cs).value.nfts
  {
    var n := |cs| - 1;
    var front, last := cs[..n], cs[n];
    var s1 := SetDenom(Replay(EMPTY, front).value, last.denom).value;
    ReplayTokensGrows(s1, last.denom.id, last.tokens, j);
    if i == n {
      ReplayTokensDistinct(s1, last.denom.id, last.tokens);
    } else {
      ReplayHolds(front, i, j);
    }
  }

  lemma Twin(s: Store, ts: seq<Token>, k: Key) returns (j: nat)
    requires Lists(s, IBC, ts) && k in s.nfts && VoucherId(k.denom)
    ensures j < |ts| && ts[j].id == k.token
    ensures DistinctIds(ts) ==> Key(IBC, k.token) !in s.nfts || !Admissible(Key(IBC, k.token))
  {
    var keys :| Scan(s, IBC, keys) && ts == TokensAt(s, keys);
    ScanFinds(IBC, k);
    assert k in keys;
    j :| 0 <= j < |keys| && keys[j] == k;
    var twin := Key(IBC, k.token);
    if twin in s.nfts && Admissible(twin) {
      ScanFinds(IBC, twin);
      assert twin in keys;
      var i :| 0 <= i < |keys| && keys[i] == twin;
      assert ts[i].id == ts[j].id && i != j;
    }
  }

  lemma InexactFails(s: Store, cs: seq<Collection>, k: Key)
    requires AdmissibleStore(s) && Exports(s, cs) && IBC in s.denoms && k in s.nfts && VoucherId(k.denom)
    requires Replay(EMPTY, cs).Ok?
    ensures Replay(EMPTY, cs).value.nfts != s.nfts
  {
    var i :| 0 <= i < |cs| && cs[i].denom.id == IBC;
    var j := Twin(s, cs[i].tokens, k);
    ReplayHolds(cs, i, j);
  }

  /** Exporting a store and importing it into an empty one restores it exactly when the genesis check accepts
      the export and no native class ibc lies beside voucher tokens. */
  lemma ExportThenInit(s: Store, cs: seq<Collection>)
    requires Consistent(s) && AdmissibleStore(s) && Exports(s, cs)
    ensures Init(EMPTY, cs).Ok? && SameContents(s, Init(EMPTY, cs).value) <==> ValidGenesis(cs) && ScansExact(s)
  {
    if ValidGenesis(cs) {
      if ScansExact(s) {
        ReplayRestores(s, cs);
      } else {
        var k :| k in s.nfts && VoucherId(k.denom);
        if Replay(EMPTY, cs).Ok? {
          InexactFails(s, cs, k);
        }
      }
    }
  }

  /** A class named like a voucher is refused on import, so no export with a voucher class can be imported. */
  lemma VoucherNotImportable(s: Store, cs: seq<Collection>, id: Text)
    requires Exports(s, cs) && id in s.denoms && HasPrefix(s.denoms[id].name, IBC_PREFIX)
    ensures !ValidGenesis(cs) && Init(EMPTY, cs).Err?
  {
    var i :| 0 <= i < |cs| && cs[i].denom.id == id;
    var name := cs[i].denom.name;
    assert name[3] == SLASH && SLASH in name;
    assert !ValidCollection(cs[i]);
  }

  // ---- the order of an export -----------------------------------------------------------------------------------

  ghost predicate KeysAscend(keys: seq<Key>) {
    forall i, j :: 0 <= i < j < |keys| ==> !Less(KeyNft(keys[j]), KeyNft(keys[i]))
  }

  /** As the store iterates: by key. */
  ghost predicate ListsInOrder(s: Store, denom: Text, ts: seq<Token>) {
    exists keys :: Scan(s, denom, keys) && KeysAscend(keys) && ts == TokensAt(s, keys)
  }

  ghost predicate IdsAscend(cs: seq<Collection>) {
    forall i, j :: 0 <= i < j < |cs| ==> !Less(cs[j].denom.id, cs[i].denom.id)
  }

  ghost predicate ExportsInOrder(s: Store, cs: seq<Collection>) {
    Exports(s, cs) && IdsAscend(cs) && forall i :: 0 <= i < |cs| ==> ListsInOrder(s, cs[i].denom.id, cs[i].tokens)
  }

  ghost predicate Ascends(a: seq<Text>) {
    forall i, j :: 0 <= i < j < |a| ==> a[i] != a[j] && !Less(a[j], a[i])
  }

  lemma FirstIsLeast(a: seq<Text>, x: Text)
    requires Ascends(a) && x in a
    ensures !Less(x, a[0])
  {
    var i :| 0 <= i < |a| && a[i] == x;
    LessTotal(x, x);
  }

  /** Ascending sequences with the same elements are equal. */
  lemma {:induction false} AscendingUnique(a: seq<Text>, b: seq<Text>)
    requires Ascends(a) && Ascends(b) && forall x :: x in a <==> x in b
    ensures a == b
    decreases |a|
  {
    assert a != [] ==> a[0] in a;
    assert b != [] ==> b[0] in b;
    if a != [] {
      FirstIsLeast(a, b[0]);
      FirstIsLeast(b, a[0]);
      LessTotal(a[0], b[0]);
      WithoutLeast(a);
      WithoutLeast(b);
      AscendingUnique(a[1..], b[1..]);
      assert a == [a[0]] + a[1..] && b == [b[0]] + b[1..];
    }
  }

  lemma WithoutLeast(a: seq<Text>)
    requires a != [] && Ascends(a)
    ensures Ascends(a[1..]) && forall x :: x in a[1..] <==> x in a && x != a[0]
  {
    assert a == [a[0]] + a[1..];
    forall x | x in a[1..]
      ensures x != a[0]
    {
      var i :| 0 <= i < |a[1..]| && a[1..][i] == x;
      assert a[i + 1] == x;
    }
  }

  ghost function KeyTexts(keys: seq<Key>): seq<Text> {
    seq(|keys|, i requires 0 <= i < |keys| => KeyNft(keys[i]))
  }

  lemma TextsAscend(s: Store, denom: Text, keys: seq<Key>)
    requires AdmissibleStore(s) && Scan(s, denom, keys) && KeysAscend(keys)
    ensures Ascends(KeyTexts(keys))
    ensures forall x :: x in KeyTexts(keys) <==> exists k :: k in s.nfts && Scanned(denom, k) && KeyNft(k) == x
  {
    var a := KeyTexts(keys);
    forall i, j | 0 <= i < j < |a|
      ensures a[i] != a[j]
    {
      if a[i] == a[j] {
        KeysInjective(keys[i], keys[j]);
      }
    }
    forall x | x in a
      ensures exists k :: k in s.nfts && Scanned(denom, k) && KeyNft(k) == x
    {
      var i :| 0 <= i < |a| && a[i] == x;
      assert KeyNft(keys[i]) == x;
    }
    forall k | k in s.nfts && Scanned(denom, k)
      ensures KeyNft(k) in a
    {
      var i :| 0 <= i < |keys| && keys[i] == k;
      assert a[i] == KeyNft(k);
    }
  }

  lemma ListingUnique(s: Store, denom: Text, ts: seq<Token>, ts': seq<Token>)
    requires AdmissibleStore(s) && ListsInOrder(s, denom, ts) && ListsInOrder(s, denom, ts')
    ensures ts == ts'
  {
    var keys :| Scan(s, denom, keys) && KeysAscend(keys) && ts == TokensAt(s, keys);
    var keys' :| Scan(s, denom, keys') && KeysAscend(keys') && ts' == TokensAt(s, keys');
    TextsAscend(s, denom, keys);
    TextsAscend(s, denom, keys');
    AscendingUnique(KeyTexts(keys), KeyTexts(keys'));
    forall i | 0 <= i < |keys|
      ensures keys[i] == keys'[i]
    {
      assert KeyTexts(keys)[i] == KeyTexts(keys')[i];
      KeysInjective(keys[i], keys'[i]);
    }
  }

  ghost function IdsOf(cs: seq<Collection>): seq<Text> {
    seq(|cs|, i requires 0 <= i < |cs| => cs[i].denom.id)
  }

  lemma IdsAre(s: Store, cs: seq<Collection>)
    requires ExportsInOrder(s, cs)
    ensures Ascends(IdsOf(cs)) && forall id :: id in IdsOf(cs) <==> id in s.denoms
  {
    forall id | id in s.denoms
      ensures id in IdsOf(cs)
    {
      var i :| 0 <= i < |cs| && cs[i].denom.id == id;
      assert IdsOf(cs)[i] == id;
    }
  }

  /** A store has one export: every node writes the same genesis file. */
  lemma ExportUnique(s: Store, cs: seq<Collection>, cs': seq<Collection>)
    requires AdmissibleStore(s) && ExportsInOrder(s, cs) && ExportsInOrder(s, cs')
    ensures cs == cs'
  {
    IdsAre(s, cs);
    IdsAre(s, cs');
    AscendingUnique(IdsOf(cs), IdsOf(cs'));
    assert |cs| == |IdsOf(cs)| == |cs'|;
    forall i | 0 <= i < |cs|
      ensures cs[i] == cs'[i]
    {
      assert IdsOf(cs)[i] == IdsOf(cs')[i];
      ListingUnique(s, cs[i].denom.id, cs[i].tokens, cs'[i].tokens);
    }
  }
}
