# Verified model of chain-main's NFT transfer, NFT store, wire codec and inflation decay

This project models, in Dafny, four parts of the Crypto.org chain and proves what they promise.

**NFT transfer between chains** (`Network*.dfy`, `Uniqueness.dfy`, `Restore.dfy`, `Delivery.dfy`, `Direction.dfy`,
`Growth.dfy`, `TwoChains.dfy`, `TransferSpec.dfy`, `ClassTrace.dfy`).
Any number of chains with channels between them form a state machine. Its steps are sends, receives, acknowledgements,
timeouts, and whatever an account can do in the NFT module. An invariant says that each voucher and each unresolved
packet is backed by one token in escrow one hop before. From it follow: at most one active representation of an NFT
over every run, refunds that never fail, homeward receives that never fail for ownership, tokens restored in full by
a refund after any interleaving, and vouchers that whoever holds them can always bring home.

**The keepers as objects** (`Keepers.dfy`, `NftStore.dfy`). The handlers and the NFT keeper update their stores in
place with loops and early returns; each method is tied to the value-level operation that the state machine uses.

**Stored bytes and genesis** (`Wire.dfy`, `Grammar.dfy`, `Messages.dfy`, `Meaning.dfy`, `Codec.dfy`, `TraceGenesis.dfy`,
`Keys.dfy`, `NftGenesis.dfy`, `GenesisRuns.dfy`). The protobuf codec with its backward writer and total decoder, a grammar
of well-formed fields that says which bytes decode and to what, the trace store on top of it, the store keys, and the
genesis import and export of both modules.

**Inflation decay** (`Decimal.dfy`, `Inflation.dfy`, `InflationKeeper.dfy`). 18-digit decimals with rounding half to
even, the exact decomposition of the exponent, an error bound for square and multiply and with it for the whole
formula, the cached root, and the module's genesis.

`dafny verify dfyconfig.toml` checks everything.

## What is assumed

- SHA-256 is a function to 32 bytes. It is collision-free only on a set `paths` of class paths, since no function to
  32 bytes is injective on all strings. A run is cut at a send whose class path would leave `paths`.
- Port and channel identifiers hold no slash. Native class ids hold no slash, as `ValidateDenomID` demands.
- Channels are fixed over a run, and each end has one peer. The first 20 bytes of SHA-256 have no collision among the
  escrow preimages of one chain's channel ends; that the accounts differ is then proved (`Network.EscrowsDiffer`). They
  have no key, so no account signs for them. Packets may name any receiver, an escrow account included.
- IBC core delivers a packet once, either to the receiver or back to the sender, and reverts a failed receive.
  Transactions are atomic.
- Account addresses have 1 to 255 bytes. They read back from their text (`read(show(a)) == Some(a)`), and whatever reads
  is such an address; other texts may fail to read.
- Issue and mint messages pass their basic checks (x/nft/types/msgs.go:47-56, 177-190). Of the other messages of the NFT
  module, recipients and URIs are checked; they are let through for every class, vouchers included, which is more than
  their checks allow.
- Initial worlds hold native classes only, with consistent stores where consistency is stated.
- The approximate root is any function that may fail. A statement that needs its accuracy takes the error as a parameter.
- Byte slices have fewer than 2^63 bytes.

## Where the code does not meet a property

Each case has its exact condition in the table below.

- A native class with the id `ibc` shares its key prefix with all voucher classes: its prefix scan returns their tokens
  (`Keys.ScanFinds`), its keys do not split back (`Keys.SplitNative`), and an export that holds both is not restored
  (`NftGenesis.ExportThenInit`).
- `ValidateGenesis` applies the rule for ids to the class name, so after no run can a chain that holds a voucher class be
  exported and imported (`GenesisRuns.VoucherChainNotImportable`), and neither can one whose class names are not valid
  ids. For the chains of a run the names are all that stands in the way (`GenesisRuns.ReachableExport`).
- An inflation epoch kept while decay is switched off makes the module's export unusable, and an epoch of zero is lost
  (`InflationKeeper.EpochNotRestored`).
- `ParseClassTrace` and `GetFullClassPath` are inverse only on the strings and traces named by
  `ClassTraces.PrintAfterParse` and `ClassTraces.ParseAfterPrint`.
- A native class may carry the id of a voucher class as its name. Outward receives of that class then fail
  (`NetworkHandlers.OutwardReceiveSucceeds`), in every later state (`Growth.TakenForEver`);
  `TwoChains.OutwardReceiveFails` is such a run.

## Where the code and its comments differ

- x/nft-transfer/types/packet.go:38-40 says that address formats are not checked, but lines 58-70 decode the sender and
  the receiver with the receiving chain's address format. The model follows the code, so a packet from a chain whose
  addresses the receiver cannot read is refused (`NetworkHandlers.OutwardReceiveSucceeds`).

## Model

| member | source | states |
|---|---|---|
| Uniqueness.UniqueInEveryRun | x/nft-transfer/keeper/packet.go:94-202 | over every run of any number of chains, from every initial state, an original NFT has at most one representation that is in flight or owned by an account other than an escrow |
| Uniqueness.AtMostOneActive | x/nft-transfer/keeper/packet.go:94-202 | the same in every state that satisfies the invariant: two active representations with one origin and one token id are the same |
| Uniqueness.OneWay | x/nft-transfer/keeper/packet.go:91-118 | the places a token occupies lie on one line: of two with the same origin, the shallower is on the way back from the deeper |
| Uniqueness.ParentEscrowed | x/nft-transfer/keeper/packet.go:106-117 | whatever sits away from its origin, voucher or packet, has its token held by the escrow account one hop before |
| NetworkTheorems.RunKeepsInv | x/nft-transfer/keeper/packet.go:21-202 | the backing invariant holds after every run: each voucher and each unresolved packet is backed by one escrowed token, with at most one voucher or packet for it, traces are content-addressed, and voucher classes have the right creator |
| NetworkTheorems.NextKeepsInv | x/nft-transfer/keeper/relay.go:39-132 | every step keeps that invariant: send, receive, acknowledgement, timeout and whatever an account does in the NFT module |
| NetworkTheorems.InitialInv | x/nft-transfer/keeper/packet.go:148-202 | worlds with native classes only, before any transfer, satisfy it |
| NetworkTheorems.SendStep | x/nft-transfer/keeper/relay.go:39-94 | a send keeps the invariant, escrowing outward and burning homeward |
| NetworkTheorems.ReceiveStep | x/nft-transfer/ibc_module.go:153-186 | a receive keeps it, whether the packet is delivered or answered with an error acknowledgement |
| NetworkTheorems.RefundStep | x/nft-transfer/keeper/relay.go:113-132 | a refund keeps it, resolves the packet and never fails |
| NetworkTheorems.SendShape | x/nft-transfer/keeper/packet.go:58-134 | what a send that changes the world did: distinct tokens of the sender, escrowed or burned, and one packet that carries the full class path |
| NetworkPackets.SlotFree | x/nft-transfer/keeper/packet.go:94-118 | while an account holds the token a packet is about to stand for, neither a voucher nor a packet stands for it at the other end |
| NetworkPackets.SendKeepsInv | x/nft-transfer/keeper/packet.go:94-134 | the backing invariant after escrowing or burning |
| NetworkDelivery.MintKeepsInv | x/nft-transfer/keeper/packet.go:153-185 | the backing invariant after vouchers appear for a packet that is no longer live |
| NetworkDelivery.ReleaseKeepsInv | x/nft-transfer/keeper/packet.go:186-202 | the backing invariant after the escrow gives a packet's tokens up |
| NetworkDelivery.SameBacking | x/nft-transfer/keeper/packet.go:106-111 | one escrowed token backs one slot: two backings of the same token are equal |
| NetworkSteps.LocalKeepsInv | x/nft/keeper/keeper.go:47-181 | account operations that touch no escrowed token and create no voucher keep the invariant |
| NetworkSteps.MoveIsLocal | x/nft/keeper/keeper.go:73-181 | mint, edit, transfer, burn and issue by an account other than an escrow are such operations |
| NetworkSteps.UserClassNative | x/nft/keeper/denom.go:82-98 | a class created by an account with a key is native, so accounts mint no vouchers |
| NetworkHandlers.VoucherCreator | x/nft-transfer/keeper/packet.go:151-182 | the creator of a voucher class is the escrow address of the last port and channel of its path, so the creator check passes on receive and refund |
| NetworkHandlers.RefundSucceeds | x/nft-transfer/keeper/packet.go:21-52 | the refund of an unresolved packet never fails, in either branch |
| NetworkHandlers.HomewardReceiveSucceeds | x/nft-transfer/keeper/packet.go:186-202 | a homeward packet is delivered if and only if it passes ValidateBasic: the escrow always owns its tokens |
| NetworkHandlers.OutwardReceiveSucceeds | x/nft-transfer/keeper/packet.go:153-185 | an outward packet is delivered if and only if it passes ValidateBasic and its class id exists or is no other class's name |
| Network.ClassIdInjective | x/nft-transfer/types/trace.go:95-107 | class ids of two good paths are equal only for equal paths |
| Network.ResolveStored | x/nft-transfer/keeper/trace.go:53-67 | a stored trace is found again from the class id of its path, and gives that path back |
| Restore.RefundRestores | x/nft-transfer/keeper/packet.go:21-52 | after a send, any interleaved run and the timeout or error acknowledgement of the still live packet, every token has the whole record it had before, in the escrow branch and in the burn branch |
| Restore.ResolvedForEver | x/nft-transfer/keeper/relay.go:113-132 | a packet that was delivered or refunded stays so over every run, and neither a receive nor a timeout nor an acknowledgement of it moves a token again |
| Restore.UndoSend | x/nft-transfer/keeper/packet.go:21-134 | a timeout straight after the send restores the chain: denoms, names, tokens, owner index, supplies and traces |
| Restore.CountTaken | x/nft/keeper/collection.go:130-142 | a homeward send makes the class smaller by the tokens sent, an outward send leaves its size |
| Restore.CountReturned | x/nft/keeper/collection.go:121-128 | a refund makes the class larger by exactly as much |
| Restore.RunKeepsConsistent | x/nft/keeper/collection.go:101-142 | denom indices inverse to each other, owner index exact and supply counters right (modulo 2^64) after every run |
| Delivery.VouchersRedeemable | x/nft-transfer/keeper/packet.go:186-202 | in every state that keeps the invariant, whoever holds vouchers can send them back over their channel: the send and the receive succeed, the vouchers are gone, and the receiver owns the original tokens with the records they had in escrow |
| Delivery.TokensDelivered | x/nft-transfer/keeper/packet.go:153-185 | an outward send whose addresses the receiving chain reads is received: the receiver owns a voucher with each token's URI, a new voucher class is named by its id with an empty schema, the URI of the class sent and the escrow account as creator, a known one is unchanged, and the tokens rest in escrow with the rest of their records |
| Delivery.DeliveredAfterRun | x/nft-transfer/keeper/packet.go:120-185 | the same for a delivery after any run in between: voucher URIs and the URI of a new voucher class are those at the time of the send |
| Delivery.ThereAndHome | x/nft-transfer/keeper/relay.go:27-38 | a journey to the other end and back gives the tokens to the last receiver with the records they started with |
| Delivery.SendBack | x/nft-transfer/keeper/packet.go:71-118 | the send of held vouchers goes through |
| TwoChains.HypothesesMet | x/nft-transfer/keeper/relay.go:27-38 | the hypotheses about runs hold together in a network of two chains and two channels with consistent, orderly stores and a token that can travel there and back |
| TwoChains.TwoChannels | x/nft-transfer/types/keys.go:45-56 | a valid network with two channels on one chain, whose escrow accounts differ |
| Network.EscrowsDiffer | x/nft-transfer/types/keys.go:45-56 | different channel ends of a chain have different escrow accounts, given only that the truncated hash has no collision among their preimages |
| ClassTraces.PreimageUnique | x/nft-transfer/types/keys.go:46-53 | the preimage of an escrow address determines port and channel |
| ClassTraces.EscrowAddressIs | x/nft-transfer/types/keys.go:45-56 | an escrow address is the first 20 bytes of the hash of the version, a zero byte, port, slash and channel |
| Network.MoveSucceeds | x/nft/types/msgs.go:47-190 | when each message of an account goes through, as an if and only if over the message and the store |
| Direction.HandlersAgree | x/nft-transfer/keeper/packet.go:27-48 | in every state, the receive and the refund of a packet take the direction its class path gives, as the send did: create vouchers or release escrowed tokens on receive, the opposite on refund, in the class the hop leads to |
| Direction.SendDirection | x/nft-transfer/keeper/packet.go:91-118 | the send escrows when the packet is outward and burns when it is not |
| Direction.ReceiveDirection | x/nft-transfer/keeper/packet.go:148-202 | the receive creates or releases exactly the packet's tokens, in the class with the path that the hop leads to |
| Direction.RefundDirection | x/nft-transfer/keeper/packet.go:27-48 | the refund releases or creates exactly the packet's tokens, in the class they were sent from |
| Network.SlotHop | x/nft-transfer/types/trace.go:32-52 | the voucher side of a packet is one of the channel's ends, and its class path starts with that end's port and channel |
| Restore.RefundRestoresSize | x/nft/keeper/collection.go:121-142 | send, any run and refund together change the size of the class by exactly what the run in between changes it |
| Restore.RefundRestoresSupply | x/nft/keeper/collection.go:101-142 | the same for the stored supply counters in 64-bit arithmetic; they are as before the send if the run left them alone |
| Growth.RunGrows | x/nft/keeper/denom.go:27-41 | over every run no class is changed or removed, no name is given up, new classes are native with a valid id or vouchers named by their id, and new tokens have admissible keys |
| Growth.TakenForEver | x/nft-transfer/keeper/packet.go:165-171 | once a voucher class's id is taken as another class's name, after every run the class does not exist and every outward packet of it is answered with an error |
| TwoChains.OutwardReceiveFails | x/nft-transfer/keeper/packet.go:167-171 | a run in which somebody takes the name and the receive ends in an error acknowledgement |
| GenesisRuns.ReachableExport | x/nft/genesis.go:13-31 | after every run, export then import restores a chain's whole NFT store if and only if every class has a name that is a valid id, which is exactly when ValidateGenesis accepts the export |
| GenesisRuns.TracesValid | x/nft-transfer/types/trace.go:109-160 | after every run from an initial state, the exported traces pass the genesis check if the host accepts the channel ends' identifiers |
| GenesisRuns.VoucherChainNotImportable | x/nft/types/genesis.go:20-25 | after every run, no export of a chain that holds a voucher class can be imported |
| GenesisRuns.RunOrderly | x/nft/types/msgs.go:47-56 | after every run, ids are admissible and voucher classes carry their id as their name |
| GenesisRuns.TracesRestored | x/nft-transfer/keeper/genesis.go:10-24 | after every run, export then import restores the port and the stored bytes of the traces |
| GenesisRuns.EncodedAddressed | x/nft-transfer/keeper/trace.go:76-94 | the encoded traces of a content-addressed chain decode to them and lie under their hashes |
| TransferSpec.SendSucceeds | x/nft-transfer/keeper/packet.go:71-122 | a send goes through if and only if the class exists and resolves, and the ids are distinct and all the sender's |
| TransferSpec.TakeAllTakes | x/nft-transfer/keeper/packet.go:94-118 | what it took: exactly those tokens, pairwise distinct, all owned by the sender, with URIs aligned index by index |
| TransferSpec.TransferAllSucceeds | x/nft-transfer/keeper/packet.go:37-41 | moving distinct tokens succeeds if and only if the class exists and the source owns all of them |
| TransferSpec.TransferAllMoves | x/nft-transfer/keeper/packet.go:196-201 | exactly the listed tokens change owner and nothing else changes |
| TransferSpec.MintAllSucceeds | x/nft-transfer/keeper/packet.go:181-185 | minting distinct tokens succeeds if and only if the minter created the class and no id is taken, with a URI for each |
| TransferSpec.MintAllAdds | x/nft-transfer/keeper/packet.go:181-185 | exactly the listed tokens appear, blank but for their URI and owner |
| TransferSpec.RefundEscrowed | x/nft-transfer/keeper/packet.go:35-41 | the refund of an outward send succeeds if and only if the class exists and the escrow owns the tokens |
| TransferSpec.RefundBurned | x/nft-transfer/keeper/packet.go:42-48 | the refund of a homeward send succeeds if and only if the escrow created the class, the ids are free and every id has a URI |
| TransferSpec.ReceiveHomeward | x/nft-transfer/keeper/packet.go:186-202 | when a homeward packet is accepted, as an if and only if over the receiving chain |
| TransferSpec.ReceiveOutward | x/nft-transfer/keeper/packet.go:153-185 | when an outward packet is accepted, as an if and only if over the receiving chain |
| Keepers.TransferKeeper.SendTransfer | x/nft-transfer/keeper/relay.go:39-94 | succeeds if and only if port, channel, sequence, the value-level send and IBC core allow it; then equals that send, and is reverted otherwise |
| Keepers.TransferKeeper.OnRecvPacket | x/nft-transfer/keeper/relay.go:101-111 | equals the value-level receive; a failure reverts the store and yields an error acknowledgement |
| Keepers.TransferKeeper.OnAcknowledgementPacket | x/nft-transfer/keeper/relay.go:117-126 | refunds on an error, changes nothing on success |
| Keepers.TransferKeeper.OnTimeoutPacket | x/nft-transfer/keeper/relay.go:130-132 | refunds |
| Keepers.TransferKeeper.CreateOutgoingPacket | x/nft-transfer/keeper/packet.go:58-134 | the loop that escrows or burns and appends URIs equals the value-level operation, whose packet TransferSpec.PacketSays describes |
| TransferSpec.PacketSays | x/nft-transfer/keeper/packet.go:76-134 | the packet of a send carries the full class path, the URI of the class, the ids, the sender and the receiver |
| TransferSpec.TakeAllFails | x/nft-transfer/keeper/packet.go:94-118 | a failing send stops at the first token that is missing or not the sender's, with that error |
| TransferSpec.TransferAllFails | x/nft-transfer/keeper/packet.go:196-201 | a failing transfer loop stops at the first token it cannot move, with that error |
| TransferSpec.MintAllFails | x/nft-transfer/keeper/packet.go:181-185 | a failing mint loop stops at the first token it cannot mint, with that error |
| TransferSpec.BasicChecks | x/nft-transfer/types/packet.go:41-73 | which error each malformed packet gets |
| TransferSpec.ResolveOutcome | x/nft-transfer/keeper/trace.go:53-67 | a native id resolves to itself, a voucher id to the path under its hash, and which ids are malformed |
| TransferSpec.HashParses | x/nft-transfer/types/trace.go:18-29 | a hash text has no or 64 hexadecimal digits, in either case, and parses to the bytes it is the text of |
| Keepers.TransferKeeper.ProcessReceivedPacket | x/nft-transfer/keeper/packet.go:140-205 | minting with trace and class recorded, or releasing, equals the value-level operation |
| Keepers.TransferKeeper.RefundPacketToken | x/nft-transfer/keeper/packet.go:21-52 | equals the value-level refund |
| Keepers.TransferKeeper.TakeTokens | x/nft-transfer/keeper/packet.go:94-118 | the escrow-or-burn loop, with its first error |
| Keepers.TransferKeeper.TransferTokens | x/nft-transfer/keeper/packet.go:196-201 | the transfer loop, with its first error |
| Keepers.TransferKeeper.MintTokens | x/nft-transfer/keeper/packet.go:181-185 | the mint loop, with its first error or missing URI |
| Keepers.TransferKeeper.ClassPathFromHash | x/nft-transfer/keeper/trace.go:53-67 | equals the value-level resolution of a class id |
| Keepers.NftKeeper.SetDenom | x/nft/keeper/denom.go:27-41 | both indices updated, or an error and nothing changed |
| Keepers.NftKeeper.MintNFTUnverified | x/nft/keeper/keeper.go:47-70 | token, owner index and supply together, or an error and nothing changed |
| Keepers.NftKeeper.MintNFT | x/nft/keeper/keeper.go:73-83 | the same behind the creator check |
| Keepers.NftKeeper.EditNFT | x/nft/keeper/keeper.go:86-119 | fields that are given change; owner and creator are checked |
| Keepers.NftKeeper.TransferOwner | x/nft/keeper/keeper.go:122-139 | owner and owner index change together |
| Keepers.NftKeeper.BurnNFT | x/nft/keeper/keeper.go:142-162 | token, owner index and supply go together, for the owner who is also the creator |
| Keepers.NftKeeper.BurnNFTUnverified | x/nft/keeper/keeper.go:166-181 | the same without the creator check |
| Keepers.NftKeeper.IncreaseSupply | x/nft/keeper/collection.go:121-128 | the counter in 64-bit arithmetic |
| Keepers.NftKeeper.DecreaseSupply | x/nft/keeper/collection.go:130-142 | the counter in 64-bit arithmetic, its entry deleted at zero |
| NftStore.DenomOutcome | x/nft/keeper/denom.go:27-64 | a class is stored, and found by id and name, if and only if both are free |
| NftStore.MintOutcome | x/nft/keeper/keeper.go:47-83 | which error each refused mint gets; otherwise the token is there as given and no other token or class changes |
| NftStore.TransferOutcome | x/nft/keeper/keeper.go:122-139 | which error each refused transfer gets; otherwise only the owner of that token changes |
| NftStore.BurnOutcome | x/nft/keeper/keeper.go:142-181 | which error each refused burn gets, an owner who is not the creator included; otherwise exactly that token is gone |
| NftStore.EditOutcome | x/nft/keeper/keeper.go:86-119 | which error each refused edit gets; otherwise each given field replaces its own and the others stay |
| NftStore.SupplyUp | x/nft/keeper/collection.go:121-128 | the counter goes up by one around 2^64 and the others stay |
| NftStore.SupplyDown | x/nft/keeper/collection.go:130-142 | the counter goes down by one around zero, and no entry that holds zero is left |
| NftStore.MintKeepsConsistent | x/nft/keeper/keeper.go:47-70 | indices, owner index and supplies stay exact |
| NftStore.TransferKeepsConsistent | x/nft/keeper/keeper.go:122-139 | indices, owner index and supplies stay exact |
| NftStore.BurnKeepsConsistent | x/nft/keeper/keeper.go:166-181 | indices, owner index and supplies stay exact |
| NftStore.SetDenomKeepsConsistent | x/nft/keeper/denom.go:27-41 | the id and name indices stay inverse to each other |
| NftStore.FoundByName | x/nft/keeper/denom.go:57-64 | in a store with inverse indices, a name finds the denom of that name; an unknown name reads as the empty id |
| NftStore.Determined | x/nft/keeper/denom.go:27-64 | a consistent store is determined by its denoms and tokens |
| NftGenesis.ExportThenInit | x/nft/genesis.go:13-31 | exporting and importing into an empty store restores all of it if and only if ValidateGenesis accepts the export and no native class "ibc" lies beside voucher tokens |
| NftGenesis.ReplayRestores | x/nft/keeper/collection.go:21-98 | replaying an export never errs and rebuilds both indices, the tokens, the owner index and the supplies |
| NftGenesis.InexactFails | x/nft/keeper/collection.go:93-98 | with a native class "ibc" beside a voucher token the import never gives the same tokens |
| NftGenesis.VoucherNotImportable | x/nft/types/genesis.go:20-25 | an export with a class whose name starts with "ibc/" is refused, because the id rule is applied to the name |
| NftGenesis.ExportUnique | x/nft/keeper/nft.go:31-42 | in key order a store with admissible keys has exactly one export |
| NftGenesis.ReplayConsistent | x/nft/keeper/collection.go:21-36 | every successful replay leaves consistent indices, owners and supplies |
| NftGenesis.ReplayTokensAdds | x/nft/keeper/collection.go:21-36 | replaying a class's tokens succeeds if and only if no id occurs twice, and adds exactly them |
| Keepers.NftKeeper.InitGenesis | x/nft/genesis.go:13-26 | the loops equal the value-level import, with its first error |
| Keepers.NftKeeper.SetGenesisCollection | x/nft/keeper/collection.go:21-36 | the mint loop equals the value-level replay, with its first error |
| Keepers.NftKeeper.GetNFTs | x/nft/keeper/nft.go:31-42 | the tokens under a class's key prefix, each once and in key order |
| Keepers.NftKeeper.ExportGenesis | x/nft/keeper/collection.go:91-98 | one collection for each denom, in key order, with what the prefix scan finds |
| Keepers.ValidateGenesis | x/nft/types/genesis.go:20-41 | accepts if and only if every name, token id, owner and URI passes |
| Keys.KeysInjective | x/nft/types/keys.go:100-111 | different admissible tokens have different store keys |
| Keys.ScanFinds | x/nft/keeper/nft.go:31-42 | the scan of a class finds a token if and only if it is the class's own, or the class is the native "ibc" and the token a voucher |
| Keys.SplitExactly | x/nft/types/keys.go:57-78 | splitting finds a class and a token if and only if the key is made of them and the class is a voucher class or a native one other than "ibc" |
| Keys.KeyLayout | x/nft/types/keys.go:80-111 | the keys of a token and of its owner, part by part |
| Keys.IdAlphabet | x/nft/types/validation.go:21-39 | an id has 3 to 64 lower-case letters and digits, the first one a letter |
| Keys.SplitAdmissible | x/nft/types/keys.go:57-78 | splitting a token's key gives its class and id if and only if the class is not the native "ibc" |
| Keys.SplitNative | x/nft/types/keys.go:68-75 | for a slash-free class id, the split is right if and only if the id is not "ibc" |
| Keys.SplitVoucher | x/nft/types/keys.go:58-67 | for a voucher class, the split is right if and only if the hash part has 64 characters |
| Keys.SplitOwner | x/nft/types/keys.go:40-55 | splitting an owner's key gives owner, class and id if and only if the class is not the native "ibc" |
| ClassTraces.PrintAfterParse | x/nft-transfer/types/trace.go:61-85 | parse then print is the identity exactly on strings other than those whose only slash comes first |
| ClassTraces.ParseAfterPrint | x/nft-transfer/types/trace.go:61-85 | print then parse is the identity exactly on traces with a slash-free base |
| ClassTraces.ParseCutsAtLastSlash | x/nft-transfer/types/trace.go:61-76 | parsing cuts at the last slash |
| ClassTraces.ThereAndBack | x/nft-transfer/keeper/relay.go:27-38 | any outward journey followed by the reverse hops ends at the starting class id |
| ClassTraces.PrefixUnique | x/nft-transfer/types/trace.go:32-52 | a path starts with the prefix of at most one port and channel |
| ClassTraces.VoucherClassId | x/nft-transfer/types/trace.go:95-107 | a prefixed path gives the 68-character id "ibc/" and the hash, two upper-case digits a byte, the high digit first |
| ClassTraces.PrefixParts | x/nft-transfer/types/trace.go:32-34 | a prefix puts the port and then the channel in front of the parts of a path |
| ClassTraces.NativeClassId | x/nft-transfer/types/trace.go:102-107 | a slash-free path is its own class id |
| Bytes.HexRoundTrip | x/nft-transfer/types/trace.go:18-29 | hexadecimal text of a digest decodes back, has twice its length and no slash |
| Bytes.HexText | x/nft-transfer/types/trace.go:95-107 | the text of each byte: two digits out of 0-9 and A-F, the high one first |
| Bytes.HexAccepts | x/nft-transfer/types/trace.go:18-29 | a text decodes if and only if it has an even number of hexadecimal digits, and then to bytes with the same text up to case |
| Bytes.LessAt | x/nft-transfer/types/trace.go:165-168 | the order of texts is decided by the first byte that differs; a proper prefix comes first |
| TraceGenesis.ExportThenInit | x/nft-transfer/keeper/genesis.go:10-24 | export then import restores the port and the stored bytes if and only if the store is content-addressed |
| TraceGenesis.InitThenExport | x/nft-transfer/keeper/genesis.go:10-24 | import then export yields the port, and a sorted permutation of the traces if and only if no two have the same hash |
| TraceGenesis.ExportUnique | x/nft-transfer/keeper/trace.go:27-35 | a content-addressed store has exactly one export |
| TraceGenesis.SortedUnique | x/nft-transfer/types/trace.go:165-177 | two sorted permutations of traces with distinct full paths are equal |
| TraceGenesis.Sort | x/nft-transfer/types/trace.go:171-177 | sorts in place by full path: sorted, and a permutation |
| TraceGenesis.TraceCheckIs | x/nft-transfer/types/trace.go:110-140 | the check on a trace is a check on its full path: ports and channels in turn, then a name that is not blank |
| TraceGenesis.ValidateTraces | x/nft-transfer/types/trace.go:146-160 | accepts if and only if every trace is valid and no two have the same hash |
| TraceGenesis.ValidateIdentifiers | x/nft-transfer/types/trace.go:125-140 | accepts if and only if there is an even, positive number of identifiers, ports and channels in turn |
| TraceGenesis.TraceKeeper.SetClassTrace | x/nft-transfer/keeper/trace.go:76-80 | the encoded trace under its hash: it reads back, all other traces read as before, and a content-addressed store stays so |
| TraceGenesis.TraceKeeper.GetClassTrace | x/nft-transfer/keeper/trace.go:15-24 | the decoded entry, or absence |
| TraceGenesis.TraceKeeper.GetAllClassTraces | x/nft-transfer/keeper/trace.go:27-49 | all decoded traces, each once, sorted |
| TraceGenesis.TraceKeeper.InitGenesis | x/nft-transfer/keeper/genesis.go:10-16 | port and every trace written, later traces over earlier ones |
| TraceGenesis.TraceKeeper.ExportGenesis | x/nft-transfer/keeper/genesis.go:19-24 | the port and the sorted traces |
| Messages.TraceRoundTrip | x/nft-transfer/types/trace.pb.go:107-291 | decoding an encoded ClassTrace gives it back |
| Messages.PacketRoundTrip | x/nft-transfer/types/packet.pb.go:148-512 | decoding an encoded NonFungibleTokenPacketData gives it back |
| Messages.GenesisRoundTrip | x/nft-transfer/types/genesis.pb.go:107-302 | decoding an encoded GenesisState with nested traces gives it back |
| Messages.TraceLength | x/nft-transfer/types/trace.pb.go:155-174 | Size is the length of the encoding |
| Messages.PacketLength | x/nft-transfer/types/packet.pb.go:228-267 | Size is the length of the encoding |
| Messages.GenesisLength | x/nft-transfer/types/genesis.pb.go:162-183 | Size is the length of the encoding |
| Wire.SovIsLength | x/nft-transfer/types/packet.pb.go:265-267 | the bit-length formula counts the bytes that the varint encoder writes |
| Wire.VarintRoundTrip | x/nft-transfer/types/packet.pb.go:217-227 | every 64-bit value reads back from its varint, whatever follows |
| Wire.DecodeAppend | x/nft-transfer/types/packet.pb.go:271-512 | decoding a concatenation is decoding the first part and then the second on top of it |
| Grammar.UnknownFieldTransparent | x/nft-transfer/types/trace.pb.go:271-284 | splicing any well-formed field with an unknown number at a field boundary changes nothing |
| Grammar.SkipsExactly | x/nft-transfer/types/trace.pb.go:292-369 | skipping gets past exactly the well-formed fields, told from the bytes: a tag with a varint, 8 bytes, a length and as many bytes, a group of such fields, or 4 bytes |
| Grammar.SkipsOne | x/nft-transfer/types/trace.pb.go:292-369 | each well-formed field is skipped to its own end, inside any number of open groups |
| Grammar.ReadsVarint | x/nft-transfer/types/trace.pb.go:185-197 | one to ten bytes of which only the last is below 128 are read to their end and to the value of their seven-bit groups |
| Grammar.DecodesExactly | x/nft-transfer/types/trace.pb.go:178-291 | decoding succeeds exactly on the bytes of a sequence of well-formed fields, and takes them in one after another |
| Meaning.TraceMeaning | x/nft-transfer/types/trace.pb.go:178-291 | bytes decode to a ClassTrace if and only if they are well-formed fields whose last field 1 and last field 2 are its path and base |
| Meaning.PacketMeaning | x/nft-transfer/types/packet.pb.go:271-512 | bytes decode to a packet if and only if they are well-formed fields with the last of fields 1, 2, 5, 6 and all of fields 3 and 4 in order |
| Meaning.GenesisMeaning | x/nft-transfer/types/genesis.pb.go:187-302 | bytes decode to a genesis state if and only if they are well-formed fields with the last field 1 and the traces that all fields 2 encode |
| Meaning.Layout | x/nft-transfer/types/packet.pb.go:163-216 | each message is written as its fields in ascending order behind their tag bytes, empty strings left out |
| Meaning.TraceShortest | x/nft-transfer/types/trace.pb.go:107-174 | no bytes that decode to a ClassTrace are shorter than its encoding |
| Meaning.PacketShortest | x/nft-transfer/types/packet.pb.go:148-267 | no bytes that decode to a packet are shorter than its encoding |
| Meaning.GenesisShortest | x/nft-transfer/types/genesis.pb.go:107-183 | no bytes that decode to a genesis state are shorter than its encoding |
| Wire.SignedWords | x/nft-transfer/types/packet.pb.go:290-297 | the signed readings of a tag and of a length keep the low bits and lie in the signed range |
| Codec.EncodeVarint | x/nft-transfer/types/packet.pb.go:217-227 | writes exactly the varint in front of the offset and leaves the rest of the buffer |
| Codec.MarshalTrace | x/nft-transfer/types/trace.pb.go:107-143 | the backward writer fills exactly Size bytes with the encoding |
| Codec.MarshalPacket | x/nft-transfer/types/packet.pb.go:148-216 | the backward writer fills exactly Size bytes with the encoding |
| Codec.MarshalGenesis | x/nft-transfer/types/genesis.pb.go:107-150 | the backward writer fills exactly Size bytes with the encoding |
| Codec.Skip | x/nft-transfer/types/packet.pb.go:513-590 | on every byte sequence: a well-formed field in front is skipped to its end, and a length inside the data is that of such a field |
| Codec.ReadVarint | x/nft-transfer/types/packet.pb.go:275-289 | on every byte sequence, the value and the position behind it; an overflow if and only if ten bytes go on, an unexpected end if and only if fewer go on up to the end |
| Codec.UnmarshalTrace | x/nft-transfer/types/trace.pb.go:178-291 | on every byte sequence, the message the wire format gives it or an error, without an index out of range |
| Codec.UnmarshalPacket | x/nft-transfer/types/packet.pb.go:271-512 | on every byte sequence, the message the wire format gives it or an error, without an index out of range |
| Codec.UnmarshalGenesis | x/nft-transfer/types/genesis.pb.go:187-302 | on every byte sequence, the message the wire format gives it or an error, without an index out of range |
| Inflation.MonthsExact | x/inflation/keeper/mint.go:50-63 | for fewer than 2 * 10^18 blocks a month, the truncated rounded quotient is the exact number of months, and months and remainder recombine |
| Inflation.MonthsRoundUp | x/inflation/keeper/mint.go:56-62 | the bound is tight: from 2 * 10^18 blocks a month on, which no 64-bit BlocksPerYear reaches, the last block of the first month counts as a month |
| Inflation.DecayedNear | x/inflation/keeper/mint.go:54-70 | with y near the exact root, base * x^n * y^r is base * root^elapsed up to the stated error |
| Inflation.DecayedBound | x/inflation/keeper/mint.go:65-69 | the decayed rate lies between zero and the base rate in spite of rounding |
| Inflation.DecayedFully | x/inflation/keeper/mint.go:65-69 | with factors zero, the rate is the base at the epoch and zero after it |
| Decimal.PowerNear | x/inflation/keeper/mint.go:66-68 | the rounded power of an approximation is off by at most the exponent times its error plus half a unit in the last place |
| Decimal.LoopNear | x/inflation/keeper/mint.go:66-68 | any relation kept by one product, with errors adding up, is kept by square and multiply |
| Decimal.ExactLoopIs | x/inflation/keeper/mint.go:66-68 | square and multiply without rounding is the power |
| Decimal.PowerBound | x/inflation/keeper/mint.go:66-68 | powers of a number between 0 and 1 stay between 0 and 1 |
| InflationKeeper.RateFollowsFormula | x/inflation/keeper/mint.go:15-73 | the documented formula base * (1 - decay)^(elapsed / blocks per month), with an explicit error for the root and all roundings |
| InflationKeeper.RateBound | x/inflation/keeper/mint.go:54-72 | with a non-negative base, a valid decay rate and the per-block root in use between 0 and 1, the rate lies between zero and the base rate |
| InflationKeeper.FullDecay | x/inflation/keeper/mint.go:54-72 | a decay rate of one stops inflation at every height after the epoch |
| InflationKeeper.CacheInvisible | x/inflation/keeper/mint.go:76-94 | keepers with any two histories of calls answer alike, and like a computation without the cache |
| InflationKeeper.CacheStaysOk | x/inflation/keeper/keeper.go:136-146 | after any calls, a populated cache holds the root for its own key |
| InflationKeeper.Keeper.Inflation | x/inflation/keeper/mint.go:20-74 | the answer and the cache left behind, which CacheInvisible, RateOutcome and RateFollowsFormula pin down |
| InflationKeeper.RateOutcome | x/inflation/keeper/mint.go:22-72 | which error the rate fails with, each as an if and only if, and that it is the base rate whenever the decay is not under way |
| InflationKeeper.RateOutsideDecay | x/inflation/keeper/mint.go:34-48 | with decay off, no epoch, a height before the epoch or no whole block a month, the rate is the base rate |
| InflationKeeper.RateAtWholeMonths | x/inflation/keeper/mint.go:54-70 | after n whole months the rate is base * (1 - decay)^n, whatever the root |
| InflationKeeper.RateAfterYears | x/inflation/keeper/mint.go:50-70 | a year has twelve months |
| Decimal.RoundsHalfToEven | x/inflation/keeper/mint.go:65-69 | products are rounded to the nearest unit in the last place, ties to even, on both sides of zero |
| Decimal.DropsRemainder | x/inflation/keeper/mint.go:56-62 | the truncating division drops a remainder with the sign of the dividend |
| InflationKeeper.Keeper.PerBlockFactor | x/inflation/keeper/mint.go:76-94 | the cached factor on a hit, else the root, stored if it was found |
| InflationKeeper.Keeper.SetParams | x/inflation/keeper/keeper.go:80-87 | stores valid parameters, refuses others |
| InflationKeeper.Keeper.SetDecayEpochStart | x/inflation/keeper/keeper.go:90-111 | the height reads back from its eight bytes |
| InflationKeeper.GetAfterPut | x/inflation/keeper/keeper.go:92-110 | big-endian bytes read back as the number |
| InflationKeeper.PutAfterGet | x/inflation/keeper/keeper.go:92-110 | the number's big-endian bytes are the bytes it was read from |
| InflationKeeper.ExportThenInit | x/inflation/keeper/genesis.go:10-43 | export then import restores the store if and only if the parameters are valid and an epoch, if any, is not zero and comes with a positive decay rate |
| InflationKeeper.InitThenExport | x/inflation/keeper/genesis.go:10-43 | a valid genesis state can be imported into every store, and is exported again if and only if it brings an epoch or the store had none or one of zero |
| InflationKeeper.BigEndian | x/inflation/keeper/keeper.go:92-110 | the first byte of the epoch counts most |
| InflationKeeper.SumIs | x/inflation/abci.go:22-34 | every burned account counts once for each time it is listed |
| InflationKeeper.EpochNotRestored | x/inflation/types/genesis.go:14-24 | an epoch kept while decay is switched off makes the export unusable, and an epoch of zero is dropped |
| InflationKeeper.Keeper.InitGenesis | x/inflation/keeper/genesis.go:10-24 | writes the store of the value-level import, or refuses and writes nothing |
| InflationKeeper.Keeper.ExportGenesis | x/inflation/keeper/genesis.go:27-43 | the genesis state of the value-level export, or failure |
| InflationKeeper.Keeper.ValidateParams | x/inflation/types/params.go:36-50 | accepts if and only if supply and decay rate are set and valid and the addresses are valid |
| InflationKeeper.ValidateBurnedAddresses | x/inflation/types/params.go:77-98 | accepts if and only if every address decodes and none occurs twice |
| InflationKeeper.Keeper.BeginBlocker | x/inflation/abci.go:15-42 | passes if and only if the supply is known, every burned address decodes and the supply without their balances does not exceed a positive maximum |

## Left out

- Codec.UnmarshalTrace: says when decoding fails, not which error it gives.
- Codec.UnmarshalPacket: says when decoding fails, not which error it gives.
- Codec.UnmarshalGenesis: says when decoding fails, not which error it gives.
- Codec.Skip: says when skipping fails, not which error it gives.
- Network.MoveSucceeds: transfer, edit and burn messages are let through for every class and token id, where their basic checks ask for native ids, so that statements about runs cover more runs.
- Codec.ReadVarint: bits are combined by addition, as the bits of a varint never overlap, where the original uses a bitwise or.
- Bytes.Blank: only ASCII white space is trimmed, where the original trims Unicode white space.
- InflationKeeper.Keeper.Inflation: does not model the panic of the decimal library on numbers of more than 315 bits, which valid rates do not reach.
- InflationKeeper.Keeper.InitGenesis: takes numbers that are set; unset ones are refused by the check modelled in InflationKeeper.Keeper.ValidateParams.
- InflationKeeper.Keeper.SetParams: parameters are stored as a value; their protobuf encoding holds library types and is not modelled.
- TraceGenesis.Sort: the sorting algorithm of the Go library is not part of the source; the model inserts by swapping neighbours, and `TraceGenesis.SortedUnique` says that every sort of a content-addressed store's traces gives this result.
- Keepers.NftKeeper.ExportGenesis: requires the denom indices to be inverse, which every keeper operation keeps.
- Tokens and denoms are kept as values in maps by class and token id; `Keys.KeysInjective` says why that is the same as the byte keys, and their protobuf encoding follows the codec pattern modelled for traces.
- JSON packet bytes, bech32, light clients, packet commitments, sequences and timeout heights: steps of IBC core, abstracted as the guards of the state machine.
- The application's router (app/app.go:493-497) has no route for the transfer module at this commit; the model is of the module itself.
- Channel handshake callbacks, gRPC queries, events, telemetry, simulation and command lines: single checks or read-only plumbing.
- Upgrades, application wiring, x/supply and x/tieredrewards: library calls and wiring.
- Newton's iteration inside the decimal library's root, and the default inflation function: library code, taken as parameters.
- Class and token data beyond their use here (schemas, display data): carried along unchanged.
