/** A small network: two chains, two channels between them, one class with one token. It meets every hypothesis of
    the theorems about runs, so none of them speaks of nothing. */
module TwoChains {
  import opened Bytes
  import opened ClassTraces
  import opened NftStore
  import opened TransferSpec
  import opened Network
  import opened NetworkTheorems
  import opened Keys
  import opened Growth
  import opened Delivery
  import Restore
  import GenesisRuns

  const HERE: End := End(0, PORT_ID, [0x61])
  const THERE: End := End(1, PORT_ID, [0x61])
  const HERE_TOO: End := End(0, PORT_ID, [0x62])
  const THERE_TOO: End := End(1, PORT_ID, [0x62])
  const CLASS: Text := [0x63, 0x61, 0x74]
  const TOKEN: Text := [0x74, 0x6F, 0x6B]
  const OTHER: Text := [0x64, 0x6F, 0x67]
  const ALICE: Address := [0x41]
  const BOB: Address := [0x42]

  function Sha(s: Text): Digest {
    if s == VoucherPath() then seq(32, _ => 1)
    else if s == Preimage(HERE_TOO) then seq(32, _ => 2)
    else seq(32, _ => 0)
  }

  ghost function Pair(): Net {
    Net(map[HERE := THERE, THERE := HERE, HERE_TOO := THERE_TOO, THERE_TOO := HERE_TOO], Sha, iset{VoucherPath()},
        x => a => a, x => t => if ValidAddress(t) then Some(t) else None)
  }

  function Start(): World {
    var store := Store(map[CLASS := Denom(CLASS, CLASS, [], [], ALICE)], map[CLASS := CLASS],
                       map[Key(CLASS, TOKEN) := Nft([], [], [], ALICE)], {OwnerKey(ALICE, Key(CLASS, TOKEN))},
                       map[CLASS := 1]);
    World(map[0 := Chain(store, map[]), 1 := Chain(EMPTY, map[])], map[], 0)
  }

  lemma Escrows(x: nat, a: Address)
    ensures IsEscrow(Pair(), x, a) ==> |a| == 20
  {
  }

  lemma EndsAre(e: End)
    ensures e in Pair().peer <==> e == HERE || e == THERE || e == HERE_TOO || e == THERE_TOO
    ensures e in Pair().peer ==> Pair().peer[e] == e.(chain := 1 - e.chain)
    ensures e in Pair().peer ==> e.chain <= 1 && SlashFree(e.port) && SlashFree(e.channel)
  {
    assert HERE.channel[0] != HERE_TOO.channel[0];
  }

  lemma PreimagesDiffer()
    ensures Preimage(HERE) != Preimage(HERE_TOO)
    ensures Preimage(HERE) != VoucherPath() && Preimage(HERE_TOO) != VoucherPath()
  {
    if Preimage(HERE) == Preimage(HERE_TOO) {
      PreimageUnique(HERE.port, HERE.channel, HERE_TOO.port, HERE_TOO.channel);
      assert HERE.channel[0] != HERE_TOO.channel[0];
    }
    assert Preimage(HERE)[0] == 0x69 && Preimage(HERE_TOO)[0] == 0x69 && VoucherPath()[0] == 0x6E;
  }

  lemma EscrowsAre(e: End)
    requires e in Pair().peer
    ensures Escrow(Pair(), e)[0] == if e.channel == HERE_TOO.channel then 2 else 0
  {
    EndsAre(e);
    PreimagesDiffer();
  }

  lemma NetworkIsValid()
    ensures ValidNet(Pair())
  {
    forall e | e in Pair().peer
      ensures Pair().peer[e] in Pair().peer && Pair().peer[Pair().peer[e]] == e && SlashFree(e.port) && SlashFree(e.channel)
    {
      EndsAre(e);
      EndsAre(Pair().peer[e]);
    }
    forall d, e | d in Pair().peer && e in Pair().peer && d.chain == e.chain && Escrow(Pair(), d) == Escrow(Pair(), e)
      ensures Preimage(d) == Preimage(e)
    {
      EndsAre(d);
      EndsAre(e);
      EscrowsAre(d);
      EscrowsAre(e);
    }
  }

  /** Two channels of one chain, whose escrow accounts differ. */
  lemma TwoChannels()
    ensures ValidNet(Pair()) && HERE in Pair().peer && HERE_TOO in Pair().peer && HERE != HERE_TOO
    ensures HERE.chain == HERE_TOO.chain && Escrow(Pair(), HERE) != Escrow(Pair(), HERE_TOO)
  {
    NetworkIsValid();
    EndsAre(HERE);
    assert HERE.channel[0] != HERE_TOO.channel[0];
    EscrowsDiffer(Pair(), HERE, HERE_TOO);
  }

  lemma StartIsInitial()
    ensures Initial(Pair(), Start())
  {
    Escrows(0, ALICE);
  }

  const OUT: Action := Send(HERE, CLASS, [TOKEN], ALICE, BOB)

  /** Wherever chain 0 is as at the start, the token can be sent. */
  lemma SendGoesThrough(w: World) returns (p: Packet)
    requires 0 in w.chains && w.chains[0] == Start().chains[0]
    ensures NextSend(Pair(), w, OUT) != w && w.sent in NextSend(Pair(), w, OUT).packets
    ensures NextSend(Pair(), w, OUT).packets[w.sent] == p && p.source == HERE && p.data.classId == CLASS
    ensures p.status.InFlight? && Away(p) && SlotEnd(Pair(), p) == THERE && SlotPath(Pair(), p) == VoucherPath()
  {
    var net := Pair();
    Escrows(0, ALICE);
    EndsAre(HERE);
    SendSucceeds(net.sha, w.chains[0], HERE.port, HERE.channel, CLASS, [TOKEN], ALICE, ALICE, BOB);
    var r := CreateOutgoing(net.sha, w.chains[0], HERE.port, HERE.channel, CLASS, [TOKEN], ALICE, ALICE, BOB);
    p := Packet(HERE, r.value.1, InFlight);
    assert p.data.classId == CLASS;
    assert |CLASS| < |ClassPrefix(HERE.port, HERE.channel)|;
    assert SlotPath(net, p) == VoucherPath();
    assert NextSend(net, w, OUT).sent == w.sent + 1;
  }

  function VoucherPath(): Text {
    Prefix(THERE) + CLASS
  }

  lemma StartIsConsistent()
    ensures Restore.AllConsistent(Start())
  {
    var s := Start().chains[0].nft;
    forall d
      ensures TotalSupply(s, d) == |TokensOf(s, d)| % TWO64
      ensures TotalSupply(EMPTY, d) == |TokensOf(EMPTY, d)| % TWO64
    {
      assert TokensOf(s, d) == if d == CLASS then {Key(CLASS, TOKEN)} else {};
      assert TokensOf(EMPTY, d) == {};
    }
  }

  lemma StartIsOrderly()
    ensures GenesisRuns.AllOrderly(Start())
  {
    assert ValidId(CLASS) && ValidId(TOKEN);
  }

  lemma TokenCanTravel()
    ensures CanTravel(Pair(), Start(), OUT, CLASS, ALICE)
  {
    var _ := SendGoesThrough(Start());
    Escrows(1, BOB);
    EndsAre(HERE);
    assert ALICE[0] in ALICE && BOB[0] in BOB && CLASS[0] in CLASS;
    assert !Blank(ALICE) && !Blank(BOB) && !Blank(CLASS);
    assert |CLASS| < |ClassPrefix(HERE.port, HERE.channel)|;
  }

  /** The hypotheses hold together: a valid network, an initial state with consistent stores, and a token that can
      travel to the other chain and back. */
  lemma HypothesesMet()
    ensures ValidNet(Pair()) && Initial(Pair(), Start()) && Inv(Pair(), Start())
    ensures Restore.AllConsistent(Start()) && GenesisRuns.AllOrderly(Start())
    ensures CanTravel(Pair(), Start(), OUT, CLASS, ALICE)
  {
    NetworkIsValid();
    StartIsInitial();
    InitialInv(Pair(), Start());
    StartIsConsistent();
    StartIsOrderly();
    TokenCanTravel();
  }

  // ---- a name that is taken ---------------------------------------------------------------------------------

  ghost function VoucherClass(): Text {
    ClassId(Pair().sha, VoucherPath())
  }

  /** On the other chain, somebody issues a class that is named like the vouchers to come. */
  ghost function TakeName(): Action {
    User(1, BOB, Issue(OTHER, VoucherClass(), [], []))
  }

  lemma IssueTakesName(id: Text)
    requires VoucherId(id)
    ensures MoveResult(EMPTY, BOB, Issue(OTHER, id, [], [])).Ok?
    ensures NameTaken(MoveResult(EMPTY, BOB, Issue(OTHER, id, [], [])).value, id)
  {
    assert id[3] == SLASH && SLASH in id;
    assert !Blank(id) && ValidId(OTHER);
    assert |id| != |OTHER|;
  }

  lemma UserStepIs(net: Net, w: World, x: nat, user: Address, m: Move, s': Store)
    requires x in w.chains && !IsEscrow(net, x, user) && MoveResult(w.chains[x].nft, user, m) == Ok(s')
    ensures Next(net, w, User(x, user, m)) == w.(chains := w.chains[x := w.chains[x].(nft := s')])
  {
  }

  lemma NameCanBeTaken()
    ensures var w := Next(Pair(), Start(), TakeName());
            && 1 in w.chains && NameTaken(w.chains[1].nft, VoucherClass())
            && 0 in w.chains && w.chains[0] == Start().chains[0] && w.sent == 0
  {
    Escrows(1, BOB);
    VoucherIdOf(Pair().sha, THERE.port, THERE.channel, CLASS);
    IssueTakesName(VoucherClass());
    var m := Issue(OTHER, VoucherClass(), [], []);
    assert Start().chains[1].nft == EMPTY;
    UserStepIs(Pair(), Start(), 1, BOB, m, MoveResult(EMPTY, BOB, m).value);
  }

  /** The failing side of an outward receive is reached: the packet is answered with an error. */
  lemma OutwardReceiveFails()
    ensures var w := Run(Pair(), Start(), [TakeName(), OUT, Receive(0)]);
            0 in w.packets && w.packets[0].status.ErrorAck?
  {
    var net, w0 := Pair(), Start();
    HypothesesMet();
    var w1 := Next(net, w0, TakeName());
    NextKeepsInv(net, w0, TakeName());
    NameCanBeTaken();
    var p := SendGoesThrough(w1);
    var w2 := Next(net, w1, OUT);
    NextKeepsInv(net, w1, OUT);
    RunOfOne(net, w1, OUT);
    TakenForEver(net, w1, [OUT], 1, VoucherPath());
    assert InFlightTo(net, w2, 0, 1, VoucherPath());
    RunOfThree(net, w0, TakeName(), OUT, Receive(0));
  }

  lemma RunOfOne(net: Net, w: World, a: Action)
    ensures Run(net, w, [a]) == Next(net, w, a)
  {
    assert [a][1..] == [];
  }

  lemma RunOfThree(net: Net, w: World, a: Action, b: Action, c: Action)
    ensures Run(net, w, [a, b, c]) == Next(net, Next(net, Next(net, w, a), b), c)
  {
    assert [a, b, c][1..] == [b, c];
    assert [b, c][1..] == [c];
    RunOfOne(net, Next(net, Next(net, w, a), b), c);
  }
}
