/** The inflation module's store, its rate of a block with the cached factor, and its genesis state. */
module InflationKeeper {
  import opened Bytes
  import opened Decimal
  import opened Inflation

  datatype Params = Params(maxSupply: int, burned: seq<Text>, decayRate: int)

  datatype Failure = NoParams | BadEpoch | NoRoot | NoSupply | BadAddress | SupplyExceeded

  /** The module's entries in the key-value store; an absent epoch reads as no bytes. */
  datatype Entries = Entries(params: Option<Params>, epoch: Text)

  const EMPTY: Entries := Entries(None, [])

  // ---- the epoch, as eight big-endian bytes ------------------------------------------------------------

  ghost function Pow256(n: nat): nat {
    if n == 0 then 1 else 256 * Pow256(n - 1)
  }

  function PutBig(n: nat, h: nat): (s: Text)
    ensures |s| == n
  {
    if n == 0 then [] else PutBig(n - 1, h / 256) + [h % 256]
  }

  function GetBig(s: Text): nat {
    if s == [] then 0 else 256 * GetBig(s[..|s| - 1]) + s[|s| - 1]
  }

  lemma {:induction false} GetAfterPut(n: nat, h: nat)
    requires h < Pow256(n)
    ensures GetBig(PutBig(n, h)) == h
  {
    if n > 0 {
      GetAfterPut(n - 1, h / 256);
      assert PutBig(n, h)[..n - 1] == PutBig(n - 1, h / 256);
    }
  }

  lemma {:induction false} PutAfterGet(s: Text)
    ensures PutBig(|s|, GetBig(s)) == s && GetBig(s) < Pow256(|s|)
  {
    if s != [] {
      var t, b := s[..|s| - 1], s[|s| - 1];
      PutAfterGet(t);
      assert (256 * GetBig(t) + b) / 256 == GetBig(t) && (256 * GetBig(t) + b) % 256 == b;
      assert s == t + [b];
    }
  }

  /** The first byte counts most. */
  lemma {:induction false} BigEndian(b: byte, s: Text)
    ensures GetBig([b] + s) == b * Pow256(|s|) + GetBig(s)
  {
    if s == [] {
      assert [b][..0] == [];
    } else {
      var t, n := s[..|s| - 1], |s|;
      assert ([b] + s)[..n] == [b] + t && ([b] + s)[n] == s[n - 1];
      BigEndian(b, t);
      assert 256 * (b * Pow256(n - 1)) == b * Pow256(n);
    }
  }

  lemma EightBytes()
    ensures Pow256(8) == TWO64
  {
    assert Pow256(2) == 0x1_0000;
    assert Pow256(4) == 0x1_0000 * Pow256(2);
    assert Pow256(6) == 0x1_0000 * Pow256(4);
  }

  function EpochStart(s: Entries): Result<Option<nat>, Failure> {
    if |s.epoch| == 0 then Ok(None)
    else if |s.epoch| != 8 then Err(BadEpoch)
    else Ok(Some(GetBig(s.epoch)))
  }

  // ---- the rate, computed afresh -----------------------------------------------------------------------

  /** The library's approximate root, or its failure. */
  type Root = (int, nat) -> Option<int>

  /** One call of the inflation function, in any context. */
  datatype Query = Query(store: Entries, height: nat, base: int, blocksPerYear: nat)

  function Rate(root: Root, q: Query): Result<int, Failure> {
    if q.store.params.None? then Err(NoParams)
    else
      var decay := q.store.params.value.decayRate;
      if decay <= 0 then Ok(q.base)
      else
        match EpochStart(q.store)
        case Err(e) => Err(e)
        case Ok(None) => Ok(q.base)
        case Ok(Some(epoch)) =>
          var month := q.blocksPerYear / MONTHS_IN_YEAR;
          if q.height < epoch || month == 0 then Ok(q.base)
          else
            match root(ONE - decay, month)
            case None => Err(NoRoot)
            case Some(y) => Ok(Decayed(q.base, ONE - decay, y, q.height - epoch, month))
  }

  /** The decay is under way: the rate takes its last branch. */
  ghost predicate Decaying(q: Query) {
    && q.store.params.Some? && q.store.params.value.decayRate > 0
    && |q.store.epoch| == 8 && GetBig(q.store.epoch) <= q.height
    && MONTHS_IN_YEAR <= q.blocksPerYear
  }

  ghost function Elapsed(q: Query): nat
    requires Decaying(q)
  {
    q.height - GetBig(q.store.epoch)
  }

  predicate ValidDecay(rate: int) {
    0 <= rate <= ONE
  }

  /** Rounding never lifts the rate above the base rate, nor below zero. */
  lemma RateBound(root: Root, q: Query)
    requires q.base >= 0
    requires q.store.params.Some? ==> ValidDecay(q.store.params.value.decayRate)
    requires Decaying(q) ==>
      var y := root(ONE - q.store.params.value.decayRate, q.blocksPerYear / MONTHS_IN_YEAR);
      y.Some? ==> 0 <= y.value <= ONE
    ensures Rate(root, q).Ok? ==> 0 <= Rate(root, q).value <= q.base
  {
    if Decaying(q) {
      var x, m := ONE - q.store.params.value.decayRate, q.blocksPerYear / MONTHS_IN_YEAR;
      if root(x, m).Some? {
        DecayedBound(q.base, x, root(x, m).value, Elapsed(q), m);
      }
    }
  }

  /** Without decay, or an epoch, or a block after it, or a whole block a month, the rate is the base rate. */
  lemma RateOutsideDecay(root: Root, q: Query)
    requires q.store.params.Some?
    requires
      || q.store.params.value.decayRate <= 0
      || q.store.epoch == []
      || (|q.store.epoch| == 8 && (q.height < GetBig(q.store.epoch) || q.blocksPerYear < 12))
    ensures Rate(root, q) == Ok(q.base)
  {
  }

  /** The rate fails exactly without parameters, or with a positive decay rate and a malformed epoch, or when the decay
      is under way and the root is not found; and it is the base rate exactly as long as the decay is not under way. */
  lemma RateOutcome(root: Root, q: Query)
    ensures Rate(root, q) == Err(NoParams) <==> q.store.params.None?
    ensures Rate(root, q) == Err(BadEpoch) <==>
      q.store.params.Some? && q.store.params.value.decayRate > 0 && |q.store.epoch| != 0 && |q.store.epoch| != 8
    ensures Rate(root, q) == Err(NoRoot) <==>
      && q.store.params.Some? && q.store.params.value.decayRate > 0
      && |q.store.epoch| == 8 && GetBig(q.store.epoch) <= q.height && q.blocksPerYear >= 12
      && root(ONE - q.store.params.value.decayRate, q.blocksPerYear / 12).None?
    ensures Rate(root, q).Err? ==> Rate(root, q).error in {NoParams, BadEpoch, NoRoot}
    ensures Rate(root, q).Ok? && !Decaying(q) ==> Rate(root, q) == Ok(q.base)
  {
    if q.store.params.Some? && !Decaying(q) && q.store.params.value.decayRate > 0 && |q.store.epoch| == 8 {
      RateOutsideDecay(root, q);
    }
  }

  /** A decay rate of one stops inflation from the block after the epoch on. */
  lemma FullDecay(root: Root, q: Query)
    requires Decaying(q) && q.store.params.value.decayRate == ONE
    requires q.base >= 0 && q.blocksPerYear < TWO64
    requires root(0, q.blocksPerYear / MONTHS_IN_YEAR) == Some(0)
    ensures Rate(root, q) == Ok(if Elapsed(q) == 0 then q.base else 0)
  {
    DecayedFully(q.base, Elapsed(q), q.blocksPerYear / MONTHS_IN_YEAR);
  }

  /** After n whole months the rate is base * (1 - decay)^n, whatever the root is. */
  lemma RateAtWholeMonths(root: Root, q: Query, n: nat)
    requires Decaying(q) && q.base >= 0 && q.blocksPerYear < TWO64 && q.store.params.value.decayRate <= ONE
    requires Elapsed(q) == n * (q.blocksPerYear / MONTHS_IN_YEAR)
    ensures Rate(root, q).Ok? ==>
      Rate(root, q).value == Mul(q.base, Power(ONE - q.store.params.value.decayRate, n))
  {
    var x, month := ONE - q.store.params.value.decayRate, q.blocksPerYear / MONTHS_IN_YEAR;
    if root(x, month).Some? {
      RateWhileDecaying(root, q, x, root(x, month).value, month);
      DecayedWhole(q.base, x, root(x, month).value, n, month);
    }
  }

  /** A year has twelve months. */
  lemma RateAfterYears(root: Root, q: Query, years: nat)
    requires Decaying(q) && q.base >= 0 && q.blocksPerYear < TWO64 && q.store.params.value.decayRate <= ONE
    requires q.blocksPerYear % 12 == 0 && Elapsed(q) == years * q.blocksPerYear
    ensures Rate(root, q).Ok? ==>
      Rate(root, q).value == Mul(q.base, Power(ONE - q.store.params.value.decayRate, 12 * years))
  {
    var month := q.blocksPerYear / MONTHS_IN_YEAR;
    assert q.blocksPerYear == 12 * month;
    assert years * (12 * month) == (12 * years) * month;
    RateAtWholeMonths(root, q, 12 * years);
  }

  lemma RateWhileDecaying(root: Root, q: Query, x: int, y: int, month: nat)
    requires Decaying(q) && x == ONE - q.store.params.value.decayRate
    requires month == q.blocksPerYear / MONTHS_IN_YEAR && root(x, month) == Some(y)
    ensures month > 0 && Rate(root, q) == Ok(Decayed(q.base, x, y, Elapsed(q), month))
  {
  }

  /** The documented formula: base * (1 - decay)^(blocks elapsed / blocks per month), with the error of the
      root and of every rounding accounted for. z is the exact month-th root of x = 1 - decay. */
  lemma RateFollowsFormula(root: Root, q: Query, x: int, y: int, month: nat, z: real, delta: real)
    requires Decaying(q) && q.base >= 0 && q.blocksPerYear < TWO64
    requires x == ONE - q.store.params.value.decayRate >= 0
    requires month == q.blocksPerYear / MONTHS_IN_YEAR
    requires root(x, month) == Some(y) && Near(y, z, delta) && Pow(z, month) == Real(x)
    ensures Rate(root, q).Ok? && month > 0
    ensures Within(Real(Rate(root, q).value), Times(Real(q.base), Pow(z, Elapsed(q))),
                   HALF + Times(Real(q.base), FactorError(WholeQuo(Elapsed(q), month), Elapsed(q) % month, delta)))
  {
    RateWhileDecaying(root, q, x, y, month);
    DecayedNear(q.base, x, y, Elapsed(q), month, z, delta);
  }

  // ---- the cache ---------------------------------------------------------------------------------------

  datatype DecayCache = DecayCache(decayRate: int, blocksPerYear: nat, blockFactor: int)

  predicate Hit(cache: Option<DecayCache>, decayRate: int, blocksPerYear: nat) {
    cache.Some? && cache.value.decayRate == decayRate && cache.value.blocksPerYear == blocksPerYear
  }

  /** The factor used by a keeper that holds the cache. */
  ghost function Factor(root: Root, cache: Option<DecayCache>, decayRate: int, blocksPerYear: nat): Option<int> {
    if Hit(cache, decayRate, blocksPerYear) then Some(cache.value.blockFactor)
    else root(ONE - decayRate, blocksPerYear / MONTHS_IN_YEAR)
  }

  /** The rate answered by a keeper that holds the cache. */
  ghost function CachedRate(root: Root, cache: Option<DecayCache>, q: Query): Result<int, Failure> {
    if !Decaying(q) then Rate(root, q)
    else
      var decay := q.store.params.value.decayRate;
      match Factor(root, cache, decay, q.blocksPerYear)
      case None => Err(NoRoot)
      case Some(y) => Ok(Decayed(q.base, ONE - decay, y, Elapsed(q), q.blocksPerYear / MONTHS_IN_YEAR))
  }

  /** The cache after a call; a call that fails to find a root leaves it alone. */
  ghost function CacheAfter(root: Root, cache: Option<DecayCache>, q: Query): Option<DecayCache> {
    if !Decaying(q) then cache
    else
      var decay := q.store.params.value.decayRate;
      match Factor(root, cache, decay, q.blocksPerYear)
      case None => cache
      case Some(y) => Some(DecayCache(decay, q.blocksPerYear, y))
  }

  ghost function CacheAfterAll(root: Root, cache: Option<DecayCache>, qs: seq<Query>): Option<DecayCache>
    decreases |qs|
  {
    if qs == [] then cache else CacheAfterAll(root, CacheAfter(root, cache, qs[0]), qs[1..])
  }

  /** A populated cache holds the root for its own key. */
  ghost predicate CacheOk(root: Root, cache: Option<DecayCache>) {
    cache.Some? ==>
      root(ONE - cache.value.decayRate, cache.value.blocksPerYear / MONTHS_IN_YEAR) == Some(cache.value.blockFactor)
  }

  lemma {:induction false} CacheStaysOk(root: Root, cache: Option<DecayCache>, qs: seq<Query>)
    requires CacheOk(root, cache)
    ensures CacheOk(root, CacheAfterAll(root, cache, qs))
    decreases |qs|
  {
    if qs != [] {
      CacheStaysOk(root, CacheAfter(root, cache, qs[0]), qs[1..]);
    }
  }

  lemma CachedRateIs(root: Root, cache: Option<DecayCache>, q: Query)
    requires CacheOk(root, cache)
    ensures CachedRate(root, cache, q) == Rate(root, q)
  {
    if Decaying(q) {
      assert EpochStart(q.store) == Ok(Some(GetBig(q.store.epoch)));
    }
  }

  /** Nodes that answered different calls before, in whatever contexts, agree with each other and with a
      computation that never caches. */
  lemma CacheInvisible(root: Root, here: seq<Query>, there: seq<Query>, q: Query)
    ensures CachedRate(root, CacheAfterAll(root, None, here), q) == Rate(root, q)
    ensures CachedRate(root, CacheAfterAll(root, None, there), q)
         == CachedRate(root, CacheAfterAll(root, None, here), q)
  {
    CacheStaysOk(root, None, here);
    CacheStaysOk(root, None, there);
    CachedRateIs(root, CacheAfterAll(root, None, here), q);
    CachedRateIs(root, CacheAfterAll(root, None, there), q);
  }

  // ---- genesis -----------------------------------------------------------------------------------------

  datatype GenesisState = GenesisState(params: Params, decayEpochStart: nat)

  /** Whether a text decodes to an account address. */
  type Decoder = Text -> bool

  predicate ValidParams(address: Decoder, p: Params) {
    && p.maxSupply >= 0
    && (forall i :: 0 <= i < |p.burned| ==> address(p.burned[i]))
    && Distinct(p.burned)
    && ValidDecay(p.decayRate)
  }

  /** Parameters as they arrive, with numbers that may be unset. */
  datatype Given = Given(maxSupply: Option<int>, burned: seq<Text>, decayRate: Option<int>)

  predicate ValidGiven(address: Decoder, g: Given) {
    g.maxSupply.Some? && g.decayRate.Some? && ValidParams(address, Filled(g))
  }

  function Filled(g: Given): Params
    requires g.maxSupply.Some? && g.decayRate.Some?
  {
    Params(g.maxSupply.value, g.burned, g.decayRate.value)
  }

  predicate ValidGenesis(address: Decoder, g: GenesisState) {
    ValidParams(address, g.params) && (g.params.decayRate <= 0 ==> g.decayEpochStart == 0)
  }

  /** None where the original panics. */
  function Init(address: Decoder, s: Entries, g: GenesisState): Option<Entries> {
    if !ValidGenesis(address, g) then None
    else Some(Entries(Some(g.params), if g.decayEpochStart != 0 then PutBig(8, g.decayEpochStart) else s.epoch))
  }

  function Export(s: Entries): Option<GenesisState> {
    if s.params.None? || EpochStart(s).Err? then None
    else Some(GenesisState(s.params.value, if EpochStart(s).value.Some? then EpochStart(s).value.value else 0))
  }

  /** Exporting and importing into an empty store restores it exactly when the parameters are valid and an epoch,
      if there is one, is not zero and comes with a positive decay rate. */
  lemma ExportThenInit(address: Decoder, s: Entries)
    requires Export(s).Some?
    ensures Init(address, EMPTY, Export(s).value) == Some(s) <==>
      && ValidParams(address, s.params.value)
      && (s.epoch != [] ==> GetBig(s.epoch) != 0 && s.params.value.decayRate > 0)
  {
    PutAfterGet(s.epoch);
  }

  /** A valid genesis state with a 64-bit epoch can be imported into every store, and is what the store then exports
      exactly if it brings an epoch or the store had none, or one of zero. */
  lemma InitThenExport(address: Decoder, s: Entries, g: GenesisState)
    requires ValidGenesis(address, g) && g.decayEpochStart < TWO64
    ensures Init(address, s, g).Some?
    ensures Export(Init(address, s, g).value) == Some(g) <==>
      g.decayEpochStart != 0 || s.epoch == [] || (|s.epoch| == 8 && GetBig(s.epoch) == 0)
  {
    EightBytes();
    GetAfterPut(8, g.decayEpochStart);
  }

  /** What the two failing families do: an epoch kept while decay is switched off makes the export unusable, and
      an epoch of zero is dropped. */
  lemma EpochNotRestored(address: Decoder, p: Params, height: nat)
    requires ValidParams(address, p) && height < TWO64
    ensures
      var s := Entries(Some(p), PutBig(8, height));
      && Export(s) == Some(GenesisState(p, height))
      && (p.decayRate == 0 && height != 0 ==> Init(address, EMPTY, GenesisState(p, height)) == None)
      && (height == 0 ==> Init(address, EMPTY, GenesisState(p, height)) == Some(s.(epoch := [])))
  {
    EightBytes();
    GetAfterPut(8, height);
  }

  // ---- the keeper --------------------------------------------------------------------------------------

  /** Equal to the loop's result: every address decodes and none occurs twice. */
  method ValidateBurnedAddresses(address: Decoder, burned: seq<Text>) returns (ok: bool)
    ensures ok <==> (forall i :: 0 <= i < |burned| ==> address(burned[i])) && Distinct(burned)
  {
    var seen: set<Text> := {};
    for i := 0 to |burned|
      invariant forall t :: t in seen <==> t in burned[..i]
      invariant forall j :: 0 <= j < i ==> address(burned[j])
      invariant Distinct(burned[..i])
    {
      if !address(burned[i]) {
        return false;
      }
      if burned[i] in seen {
        var j :| 0 <= j < i && burned[j] == burned[i];
        return false;
      }
      seen := seen + {burned[i]};
      assert burned[..i + 1] == burned[..i] + [burned[i]];
    }
    assert burned[..|burned|] == burned;
    return true;
  }

  ghost function Sum(balance: Text -> int, accounts: seq<Text>): int {
    if accounts == [] then 0 else Sum(balance, accounts[..|accounts| - 1]) + balance(accounts[|accounts| - 1])
  }

  /** Every account counts once for each time it is listed. */
  lemma {:induction false} SumIs(balance: Text -> int, a: seq<Text>, b: seq<Text>, x: Text)
    ensures Sum(balance, []) == 0 && Sum(balance, [x]) == balance(x)
    ensures Sum(balance, a + b) == Sum(balance, a) + Sum(balance, b)
    decreases |b|
  {
    assert [x][..0] == [];
    if b == [] {
      assert a + b == a;
    } else {
      var front := b[..|b| - 1];
      SumIs(balance, a, front, x);
      assert (a + b)[..|a + b| - 1] == a + front;
    }
  }

  class Keeper {
    var store: Entries
    var cache: Option<DecayCache>
    const address: Decoder
    const root: Root

    constructor (address: Decoder, root: Root, store: Entries)
      ensures this.address == address && this.root == root && this.store == store
      ensures CacheOk(root, cache)
    {
      this.address, this.root, this.store, this.cache := address, root, store, None;
    }

    method ValidateParams(g: Given) returns (ok: bool)
      ensures ok <==> ValidGiven(address, g)
      ensures ok <==>
        && g.maxSupply.Some? && g.maxSupply.value >= 0
        && g.decayRate.Some? && 0 <= g.decayRate.value <= 1_000_000_000_000_000_000
        && (forall i :: 0 <= i < |g.burned| ==> address(g.burned[i])) && Distinct(g.burned)
    {
      if g.maxSupply.None? || g.maxSupply.value < 0 {
        return false;
      }
      ok := ValidateBurnedAddresses(address, g.burned);
      if !ok {
        return;
      }
      return g.decayRate.Some? && ValidDecay(g.decayRate.value);
    }

    method SetParams(g: Given) returns (ok: bool)
      modifies this`store
      ensures ok <==> ValidGiven(address, g)
      ensures store == if ok then old(store).(params := Some(Filled(g))) else old(store)
    {
      ok := ValidateParams(g);
      if ok {
        store := store.(params := Some(Filled(g)));
      }
    }

    method SetDecayEpochStart(height: nat)
      requires height < TWO64
      modifies this`store
      ensures store.params == old(store).params && EpochStart(store) == Ok(Some(height))
    {
      EightBytes();
      GetAfterPut(8, height);
      store := store.(epoch := PutBig(8, height));
    }

    method PerBlockFactor(decayRate: int, blocksPerYear: nat, blocksPerMonth: nat) returns (y: Option<int>)
      requires blocksPerMonth == blocksPerYear / MONTHS_IN_YEAR
      modifies this`cache
      ensures y == Factor(root, old(cache), decayRate, blocksPerYear)
      ensures cache == if y.Some? then Some(DecayCache(decayRate, blocksPerYear, y.value)) else old(cache)
      ensures old(CacheOk(root, cache)) ==> y == root(ONE - decayRate, blocksPerMonth) && CacheOk(root, cache)
    {
      if Hit(cache, decayRate, blocksPerYear) {
        return Some(cache.value.blockFactor);
      }
      y := root(ONE - decayRate, blocksPerMonth);
      if y.Some? {
        cache := Some(DecayCache(decayRate, blocksPerYear, y.value));
      }
    }

    method Inflation(height: nat, base: int, blocksPerYear: nat) returns (r: Result<int, Failure>)
      requires height < TWO63 && blocksPerYear < TWO64
      modifies this`cache
      ensures r == CachedRate(root, old(cache), Query(store, height, base, blocksPerYear))
      ensures cache == CacheAfter(root, old(cache), Query(store, height, base, blocksPerYear))
    {
      if store.params.None? {
        return Err(NoParams);
      }
      var decayRate := store.params.value.decayRate;
      if decayRate <= 0 {
        return Ok(base);
      }
      var start := EpochStart(store);
      if start.Err? {
        return Err(start.error);
      }
      if start.value.None? || height < start.value.value {
        return Ok(base);
      }
      var rate := base;
      var blocksPerMonth := blocksPerYear / MONTHS_IN_YEAR;
      var elapsed := height - start.value.value;
      if blocksPerMonth > 0 {
        var perBlock := PerBlockFactor(decayRate, blocksPerYear, blocksPerMonth);
        if perBlock.None? {
          return Err(NoRoot);
        }
        rate := Decayed(base, ONE - decayRate, perBlock.value, elapsed, blocksPerMonth);
      }
      return Ok(rate);
    }

    /** The block is refused when the supply outside burned accounts is unknown or exceeds a positive maximum. */
    method BeginBlocker(supply: Option<int>, balance: Text -> int) returns (r: Result<int, Failure>)
      ensures r.Ok? ==>
        store.params.Some? && supply.Some? && r.value == supply.value - Sum(balance, store.params.value.burned)
      ensures r.Ok? <==>
        && store.params.Some? && supply.Some?
        && var p := store.params.value;
           && (forall i :: 0 <= i < |p.burned| ==> address(p.burned[i]))
           && (p.maxSupply > 0 ==> supply.value - Sum(balance, p.burned) <= p.maxSupply)
    {
      if store.params.None? {
        return Err(NoParams);
      }
      if supply.None? {
        return Err(NoSupply);
      }
      var burned, accounts := 0, store.params.value.burned;
      for i := 0 to |accounts|
        invariant burned == Sum(balance, accounts[..i])
        invariant forall j :: 0 <= j < i ==> address(accounts[j])
      {
        if !address(accounts[i]) {
          return Err(BadAddress);
        }
        burned := burned + balance(accounts[i]);
        assert accounts[..i + 1][..i] == accounts[..i];
      }
      assert accounts[..|accounts|] == accounts;
      var circulating, max := supply.value - burned, store.params.value.maxSupply;
      return if max > 0 && circulating > max then Err(SupplyExceeded) else Ok(circulating);
    }

    method InitGenesis(g: GenesisState) returns (ok: bool)
      requires g.decayEpochStart < TWO64
      modifies this`store
      ensures ok <==> Init(address, old(store), g).Some?
      ensures store == if ok then Init(address, old(store), g).value else old(store)
    {
      var paramsOk := ValidateParams(Given(Some(g.params.maxSupply), g.params.burned, Some(g.params.decayRate)));
      if !paramsOk || (g.params.decayRate <= 0 && g.decayEpochStart != 0) {
        return false;
      }
      store := store.(params := Some(g.params));
      if g.decayEpochStart != 0 {
        store := store.(epoch := PutBig(8, g.decayEpochStart));
      }
      return true;
    }

    method ExportGenesis() returns (g: Option<GenesisState>)
      ensures g == Export(store)
    {
      if store.params.None? {
        return None;
      }
      var start := EpochStart(store);
      if start.Err? {
        return None;
      }
      var genesis := GenesisState(store.params.value, 0);
      if start.value.Some? {
        genesis := genesis.(decayEpochStart := start.value.value);
      }
      return Some(genesis);
    }
  }
}
