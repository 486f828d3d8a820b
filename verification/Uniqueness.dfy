/** At any time, at most one representation of an original NFT is in flight or in somebody's hands. */
module Uniqueness {
  import opened Bytes
  import opened ClassTraces
  import opened NftStore
  import opened TransferSpec
  import opened Network
  import opened NetworkPackets
  import opened NetworkDelivery
  import opened NetworkTheorems

  /** A class on a chain, by its full path. */
  datatype Place = Place(chain: nat, path: Text)

  ghost predicate AtOrigin(net: Net, at: Place) {
    HopOf(net, at.chain, at.path).None?
  }

  /** Where the class was before its last hop. */
  ghost function Parent(net: Net, at: Place): (p: Place)
    requires ValidNet(net) && !AtOrigin(net, at)
    ensures |p.path| < |at.path|
  {
    var e := HopOf(net, at.chain, at.path).value;
    Place(net.peer[e].chain, Rest(e, at.path))
  }

  ghost function Depth(net: Net, at: Place): nat
    requires ValidNet(net)
    decreases |at.path|
  {
    if AtOrigin(net, at) then 0 else 1 + Depth(net, Parent(net, at))
  }

  /** The chain and class where the NFT was first issued. */
  ghost function Origin(net: Net, at: Place): Place
    requires ValidNet(net)
    decreases |at.path|
  {
    if AtOrigin(net, at) then at else Origin(net, Parent(net, at))
  }

  /** The place `k` hops before. */
  ghost function Before(net: Net, at: Place, k: nat): Place
    requires ValidNet(net) && k <= Depth(net, at)
    decreases k
  {
    if k == 0 then at else Before(net, Parent(net, at), k - 1)
  }

  ghost predicate TokenAt(net: Net, w: World, at: Place, t: Text) {
    at.chain in w.chains && Key(ClassId(net.sha, at.path), t) in w.chains[at.chain].nft.nfts
  }

  ghost predicate PacketAt(net: Net, w: World, id: nat, at: Place, t: Text) {
    && Live(w, id)
    && at == Place(SlotEnd(net, w.packets[id]).chain, SlotPath(net, w.packets[id]))
    && t in w.packets[id].data.tokenIds
  }

  ghost predicate Inhabited(net: Net, w: World, at: Place, t: Text) {
    TokenAt(net, w, at, t) || exists id :: PacketAt(net, w, id, at, t)
  }

  ghost predicate GoodPlace(net: Net, at: Place) {
    PathOk(net, at.chain, at.path)
  }

  /** A packet's slot holds the packet alone. */
  lemma PacketSlot(net: Net, w: World, id: nat, at: Place, t: Text)
    requires ValidNet(net) && Inv(net, w) && PacketAt(net, w, id, at, t)
    ensures GoodPlace(net, at) && !TokenAt(net, w, at, t)
    ensures HopOf(net, at.chain, at.path) == Some(SlotEnd(net, w.packets[id]))
    ensures Rest(SlotEnd(net, w.packets[id]), at.path) == SlotRest(w.packets[id])
    ensures SlotHeld(net, w, w.packets[id], t)
  {
    SlotHop(net, w.packets[id]);
    SlotPathOk(net, w.packets[id]);
  }

  /** Whatever sits at a place away from the origin has its token escrowed one hop before. */
  lemma ParentEscrowed(net: Net, w: World, at: Place, t: Text)
    requires ValidNet(net) && Inv(net, w) && GoodPlace(net, at) && !AtOrigin(net, at) && Inhabited(net, w, at, t)
    ensures var e := HopOf(net, at.chain, at.path).value; Backed(net, w, net.peer[e], Rest(e, at.path), t)
    ensures GoodPlace(net, Parent(net, at)) && TokenAt(net, w, Parent(net, at), t)
  {
    HopOfNativeContra(net, at.chain, at.path);
    var _, _ := VoucherPath(net, at.chain, at.path);
    if TokenAt(net, w, at, t) {
      VoucherIsBacked(net, w, at.chain, Key(ClassId(net.sha, at.path), t), at.path);
    } else {
      var id :| PacketAt(net, w, id, at, t);
      PacketSlot(net, w, id, at, t);
    }
  }

  /** What the invariant gives for one token, place by place. */
  ghost predicate Escrowing(net: Net, w: World, t: Text)
    requires ValidNet(net)
  {
    forall at {:trigger EscrowedBefore(net, w, at, t)} ::
      Inhabited(net, w, at, t) ==> EscrowedBefore(net, w, at, t)
  }

  ghost predicate EscrowedBefore(net: Net, w: World, at: Place, t: Text)
    requires ValidNet(net)
  {
    GoodPlace(net, at) && !AtOrigin(net, at) ==>
      && GoodPlace(net, Parent(net, at))
      && Inhabited(net, w, Parent(net, at), t)
      && var e := HopOf(net, at.chain, at.path).value;
         Backed(net, w, net.peer[e], Rest(e, at.path), t)
  }

  lemma InvEscrowing(net: Net, w: World, t: Text)
    requires ValidNet(net) && Inv(net, w)
    ensures Escrowing(net, w, t)
  {
    forall at | Inhabited(net, w, at, t) ensures EscrowedBefore(net, w, at, t) {
      if GoodPlace(net, at) && !AtOrigin(net, at) {
        ParentEscrowed(net, w, at, t);
      }
    }
  }

  lemma {:induction false} BeforeParent(net: Net, at: Place, k: nat)
    requires ValidNet(net) && k < Depth(net, at)
    ensures Depth(net, Before(net, at, k)) == Depth(net, at) - k
    ensures Parent(net, Before(net, at, k)) == Before(net, Parent(net, at), k)
    decreases k
  {
    if k > 0 {
      BeforeParent(net, Parent(net, at), k - 1);
    }
  }

  lemma {:induction false} BeforeOrigin(net: Net, at: Place)
    requires ValidNet(net)
    ensures Before(net, at, Depth(net, at)) == Origin(net, at)
    decreases |at.path|
  {
    if !AtOrigin(net, at) {
      BeforeOrigin(net, Parent(net, at));
    }
  }

  /** The last hop of a place, and where it came from. */
  lemma LastHop(net: Net, at: Place) returns (f: End, rest: Text)
    requires ValidNet(net) && !AtOrigin(net, at)
    ensures f in net.peer && net.peer[f] in net.peer && HopOf(net, at.chain, at.path) == Some(net.peer[f])
    ensures at == Place(net.peer[f].chain, Prefix(net.peer[f]) + rest) && net.peer[net.peer[f]] == f
    ensures rest == Rest(net.peer[f], at.path) && Parent(net, at) == Place(f.chain, rest)
  {
    var e := HopOf(net, at.chain, at.path).value;
    f, rest := net.peer[e], Rest(e, at.path);
    RestOf(e, at.path);
  }

  /** The end that a token left its parent by, and the path it has there. */
  lemma LeftBy(net: Net, w: World, at: Place, t: Text) returns (f: End, rest: Text)
    requires ValidNet(net) && GoodPlace(net, at) && !AtOrigin(net, at) && EscrowedBefore(net, w, at, t)
    ensures f in net.peer && net.peer[f] in net.peer && net.peer[net.peer[f]] == f
    ensures at == Place(net.peer[f].chain, Prefix(net.peer[f]) + rest) && Parent(net, at) == Place(f.chain, rest)
    ensures PathOk(net, f.chain, rest) && Backed(net, w, f, rest, t)
  {
    f, rest := LastHop(net, at);
  }

  /** Two places that the token left the same parent for are the same place. */
  lemma OneChild(net: Net, w: World, a: Place, b: Place, t: Text)
    requires ValidNet(net) && GoodPlace(net, a) && GoodPlace(net, b)
    requires !AtOrigin(net, a) && !AtOrigin(net, b) && Parent(net, a) == Parent(net, b)
    requires EscrowedBefore(net, w, a, t) && EscrowedBefore(net, w, b, t)
    ensures a == b
  {
    var f, s := LeftBy(net, w, a, t);
    var g, s' := LeftBy(net, w, b, t);
    OneBacking(net, w, f, g, s, t);
  }

  lemma OneBacking(net: Net, w: World, f: End, g: End, s: Text, t: Text)
    requires ValidNet(net) && f in net.peer && g in net.peer && f.chain == g.chain && PathOk(net, f.chain, s)
    requires Backed(net, w, f, s, t) && Backed(net, w, g, s, t)
    ensures f == g
  {
    SameBacking(net, w, f, s, g, s, t);
  }

  // ---- places that form a line --------------------------------------------------------------------------

  /** A place away from its origin has its parent in the set. */
  ghost predicate Rooted(net: Net, h: iset<Place>, at: Place)
    requires ValidNet(net)
  {
    at in h && !AtOrigin(net, at) ==> Parent(net, at) in h
  }

  ghost predicate SameChild(net: Net, h: iset<Place>, a: Place, b: Place)
    requires ValidNet(net)
  {
    a in h && b in h && !AtOrigin(net, a) && !AtOrigin(net, b) && Parent(net, a) == Parent(net, b) ==> a == b
  }

  /** Closed under parents, and no place has two children in the set. */
  ghost predicate Line(net: Net, h: iset<Place>)
    requires ValidNet(net)
  {
    && (forall at {:trigger Rooted(net, h, at)} :: Rooted(net, h, at))
    && (forall a, b {:trigger SameChild(net, h, a, b)} :: SameChild(net, h, a, b))
  }

  /** Every place on the way back to the origin is in the set. */
  lemma {:induction false} AncestorsIn(net: Net, h: iset<Place>, at: Place, k: nat)
    requires ValidNet(net) && Line(net, h) && at in h && k <= Depth(net, at)
    ensures Before(net, at, k) in h
    decreases k
  {
    if k > 0 {
      var p := Unroll(net, h, at);
      AncestorsIn(net, h, p, k - 1);
    }
  }

  lemma Climb(net: Net, h: iset<Place>, a: Place, b: Place, k: nat)
    requires ValidNet(net) && Line(net, h) && a in h && b in h && !AtOrigin(net, a)
    requires k < Depth(net, b) && !AtOrigin(net, b) && k <= Depth(net, Parent(net, b))
    requires Before(net, Parent(net, b), k) == Parent(net, a)
    ensures Before(net, b, k) == a
  {
    BeforeParent(net, b, k);
    AncestorsIn(net, h, b, k);
    assert SameChild(net, h, Before(net, b, k), a);
  }

  lemma Unroll(net: Net, h: iset<Place>, at: Place) returns (p: Place)
    requires ValidNet(net) && Line(net, h) && at in h && Depth(net, at) > 0
    ensures !AtOrigin(net, at) && p == Parent(net, at) && p in h
    ensures Depth(net, at) == Depth(net, p) + 1 && Origin(net, at) == Origin(net, p)
  {
    assert Rooted(net, h, at);
    p := Parent(net, at);
  }

  lemma AtTheOrigin(net: Net, a: Place, b: Place)
    requires ValidNet(net) && Depth(net, a) == 0 && Origin(net, a) == Origin(net, b)
    ensures Before(net, b, Depth(net, b)) == a
  {
    BeforeOrigin(net, b);
  }

  /** Of two places with one origin, the shallower lies on the way of the deeper. */
  lemma {:induction false} OneWay(net: Net, h: iset<Place>, a: Place, b: Place, k: nat)
    requires ValidNet(net) && Line(net, h) && a in h && b in h
    requires Origin(net, a) == Origin(net, b) && Depth(net, b) == Depth(net, a) + k
    ensures Before(net, b, k) == a
    decreases Depth(net, a)
  {
    if Depth(net, a) == 0 {
      AtTheOrigin(net, a, b);
    } else {
      var p := Unroll(net, h, a);
      var q := Unroll(net, h, b);
      OneWay(net, h, p, q, k);
      Climb(net, h, a, b, k);
    }
  }

  /** The places where a token is. */
  ghost function PlacesOf(net: Net, w: World, t: Text): iset<Place> {
    iset at: Place | GoodPlace(net, at) && Inhabited(net, w, at, t)
  }

  lemma PlacesFormLine(net: Net, w: World, t: Text)
    requires ValidNet(net) && Inv(net, w)
    ensures Line(net, PlacesOf(net, w, t)) && Escrowing(net, w, t)
  {
    InvEscrowing(net, w, t);
    var h := PlacesOf(net, w, t);
    forall at
      ensures Rooted(net, h, at)
    {
      assert EscrowedBefore(net, w, at, t) || at !in h;
    }
    forall a, b
      ensures SameChild(net, h, a, b)
    {
      if a in h && b in h && !AtOrigin(net, a) && !AtOrigin(net, b) && Parent(net, a) == Parent(net, b) {
        assert EscrowedBefore(net, w, a, t) && EscrowedBefore(net, w, b, t);
        OneChild(net, w, a, b, t);
      }
    }
  }

  // ---- representations ------------------------------------------------------------------------------

  /** A token on a chain, or in a packet. */
  datatype Representation =
    | Held(chain: nat, key: Key)
    | Flying(id: nat, token: Text)

  /** In flight, or owned by an account that is not an escrow. */
  ghost predicate Active(net: Net, w: World, r: Representation) {
    match r
    case Held(x, k) =>
      && x in w.chains && k in w.chains[x].nft.nfts
      && !IsEscrow(net, x, w.chains[x].nft.nfts[k].owner)
    case Flying(id, t) =>
      Live(w, id) && t in w.packets[id].data.tokenIds
  }

  ghost function TokenOf(r: Representation): Text {
    match r
    case Held(_, k) => k.token
    case Flying(_, t) => t
  }

  ghost function PlaceOf(net: Net, w: World, r: Representation): Place
    requires Inv(net, w) && Active(net, w, r)
  {
    match r
    case Held(x, k) =>
      assert DenomOk(net, x, w.chains[x], k.denom);
      Place(x, ResolvePath(w.chains[x].traces, k.denom).value)
    case Flying(id, _) =>
      Place(SlotEnd(net, w.packets[id]).chain, SlotPath(net, w.packets[id]))
  }

  lemma ActiveInhabits(net: Net, w: World, r: Representation)
    requires ValidNet(net) && Inv(net, w) && Active(net, w, r)
    ensures GoodPlace(net, PlaceOf(net, w, r))
    ensures Inhabited(net, w, PlaceOf(net, w, r), TokenOf(r))
    ensures r.Held? ==>
              && r.chain == PlaceOf(net, w, r).chain
              && r.key == Key(ClassId(net.sha, PlaceOf(net, w, r).path), TokenOf(r))
    ensures r.Flying? ==> PacketAt(net, w, r.id, PlaceOf(net, w, r), TokenOf(r))
  {
    match r
    case Held(x, k) =>
      assert DenomOk(net, x, w.chains[x], k.denom);
    case Flying(id, t) =>
      assert PacketAt(net, w, id, PlaceOf(net, w, r), t);
      PacketSlot(net, w, id, PlaceOf(net, w, r), t);
  }

  /** An active representation and an escrowed token do not share a place. */
  lemma NotEscrowedHere(net: Net, w: World, r: Representation, f: End)
    requires ValidNet(net) && Inv(net, w) && Active(net, w, r) && f in net.peer
    requires f.chain == PlaceOf(net, w, r).chain
    ensures !Backed(net, w, f, PlaceOf(net, w, r).path, TokenOf(r))
  {
    ActiveInhabits(net, w, r);
    match r
    case Held(x, k) =>
      assert k == Key(k.denom, k.token);
    case Flying(id, t) =>
      PacketSlot(net, w, id, PlaceOf(net, w, r), t);
  }

  lemma SamePlaceSame(net: Net, w: World, r: Representation, q: Representation)
    requires ValidNet(net) && Inv(net, w) && Active(net, w, r) && Active(net, w, q)
    requires PlaceOf(net, w, r) == PlaceOf(net, w, q) && TokenOf(r) == TokenOf(q)
    ensures r == q
  {
    ActiveInhabits(net, w, r);
    ActiveInhabits(net, w, q);
    var at, t := PlaceOf(net, w, r), TokenOf(r);
    if r.Flying? {
      PacketSlot(net, w, r.id, at, t);
    }
    if q.Flying? {
      PacketSlot(net, w, q.id, at, t);
    }
    assert r.Flying? && q.Flying? && r.id != q.id ==> Apart(net, w.packets[r.id], w.packets[q.id]);
  }

  lemma NoneDeeper(net: Net, w: World, r: Representation, q: Representation)
    requires ValidNet(net) && Inv(net, w) && Active(net, w, r) && Active(net, w, q)
    requires TokenOf(r) == TokenOf(q)
    requires Origin(net, PlaceOf(net, w, r)) == Origin(net, PlaceOf(net, w, q))
    ensures Depth(net, PlaceOf(net, w, q)) <= Depth(net, PlaceOf(net, w, r))
  {
    ActiveInhabits(net, w, r);
    ActiveInhabits(net, w, q);
    PlacesFormLine(net, w, TokenOf(r));
    if Depth(net, PlaceOf(net, w, r)) < Depth(net, PlaceOf(net, w, q)) {
      var f := ShallowerBacked(net, w, PlaceOf(net, w, r), PlaceOf(net, w, q), TokenOf(r));
      NotEscrowedHere(net, w, r, f);
    }
  }

  /** The shallower of two inhabited places with one origin is in escrow. */
  lemma ShallowerBacked(net: Net, w: World, a: Place, b: Place, t: Text) returns (f: End)
    requires ValidNet(net) && Escrowing(net, w, t) && Line(net, PlacesOf(net, w, t))
    requires a in PlacesOf(net, w, t) && b in PlacesOf(net, w, t)
    requires Origin(net, a) == Origin(net, b) && Depth(net, a) < Depth(net, b)
    ensures f in net.peer && f.chain == a.chain && Backed(net, w, f, a.path, t)
  {
    var k := Depth(net, b) - Depth(net, a);
    OneWay(net, PlacesOf(net, w, t), a, b, k);
    AncestorsIn(net, PlacesOf(net, w, t), b, k - 1);
    BeforeStep(net, b, k);
    var c := Before(net, b, k - 1);
    assert EscrowedBefore(net, w, c, t);
    f := net.peer[HopOf(net, c.chain, c.path).value];
  }

  lemma {:induction false} BeforeStep(net: Net, b: Place, k: nat)
    requires ValidNet(net) && 0 < k <= Depth(net, b)
    ensures !AtOrigin(net, Before(net, b, k - 1))
    ensures Before(net, b, k) == Parent(net, Before(net, b, k - 1))
  {
    BeforeParent(net, b, k - 1);
  }

  ghost predicate SameNft(net: Net, w: World, r: Representation, q: Representation)
    requires ValidNet(net) && Inv(net, w) && Active(net, w, r) && Active(net, w, q)
  {
    TokenOf(r) == TokenOf(q) && Origin(net, PlaceOf(net, w, r)) == Origin(net, PlaceOf(net, w, q))
  }

  /** Global uniqueness: an original NFT has at most one active representation. */
  lemma AtMostOneActive(net: Net, w: World, r: Representation, q: Representation)
    requires ValidNet(net) && Inv(net, w) && Active(net, w, r) && Active(net, w, q) && SameNft(net, w, r, q)
    ensures r == q
  {
    NoneDeeper(net, w, r, q);
    NoneDeeper(net, w, q, r);
    ActiveInhabits(net, w, r);
    ActiveInhabits(net, w, q);
    PlacesFormLine(net, w, TokenOf(r));
    OneWay(net, PlacesOf(net, w, TokenOf(r)), PlaceOf(net, w, r), PlaceOf(net, w, q), 0);
    SamePlaceSame(net, w, r, q);
  }

  /** The same, over every run from every initial state. */
  lemma UniqueInEveryRun(net: Net, w0: World, run: seq<Action>)
    requires ValidNet(net) && Initial(net, w0)
    ensures Inv(net, Run(net, w0, run))
    ensures var w := Run(net, w0, run);
            forall r, q :: Active(net, w, r) && Active(net, w, q) && SameNft(net, w, r, q) ==> r == q
  {
    InitialInv(net, w0);
    RunKeepsInv(net, w0, run);
    var w := Run(net, w0, run);
    forall r, q | Active(net, w, r) && Active(net, w, q) && SameNft(net, w, r, q) ensures r == q {
      AtMostOneActive(net, w, r, q);
    }
  }
}
