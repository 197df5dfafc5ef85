/** The storage of the market and of the contracts it calls, as one value. */
module MarketState {
  import opened Prelude
  import opened CiphertextEncoding
  import Vaults = ShieldedEscrowVault
  import Pots = SlashedPot
  import Avss = EigenLayerAvs
  import Registries = ShieldedIdentityRegistry

  datatype AuctionState = Created | Active | Resolving | Finalized | Cancelled | Voided

  /** A CoFHE adapter is known by what it decodes: the local prototype, or a live provider's own handles. */
  datatype Adapter = LocalPrototype | Provider(plaintexts: map<Word, nat>) {
    function Decode(handle: Word): Option<nat> {
      match this
      case LocalPrototype => DecodeNumeric(handle)
      case Provider(plaintexts) => if handle in plaintexts then Some(plaintexts[handle]) else None
    }
  }

  /** The five dependencies an auction snapshots at creation; ZERO is "not configured". */
  datatype Dependencies = Dependencies(adapter: Adapter, engine: Address, pot: Address, vault: Address, registry: Address)

  /** What createAuction fixes for good. */
  datatype Terms = Terms(nft: Address, tokenId: nat, seller: Address, createdAt: nat, endTime: nat,
                         deposit: nat, startingPrice: nat, deps: Dependencies)

  datatype Request = Request(requestId: Avss.RequestId, requestedAt: nat)

  datatype Finalization = Finalization(executor: Address, reward: nat, nonce: nat, salt: Word, claimed: bool)

  datatype Outcome = Outcome(winner: Address, ciphertext: Word, amount: nat, identity: Word)

  const NO_OUTCOME := Outcome(ZERO, 0, 0, 0)

  /** Every mapping row the market keeps for one auction. */
  datatype Auction = Auction(
    terms: Terms,
    state: AuctionState,
    totalEscrow: nat,
    escrow: map<Address, nat>,
    withdrawn: set<Address>,
    bids: map<Address, Word>,
    bidders: seq<Address>,
    shieldedBids: map<Word, Word>,
    commitments: seq<Word>,
    bidCount: nat,
    resolvingSince: nat,
    request: Option<Request>,
    keeper: Option<Finalization>,
    outcome: Outcome,
    slash: nat,
    sellerClaimed: bool,
    assetClaimed: bool,
    refundsUnlocked: bool,
    settledRefunds: set<Word>)
  {
    predicate Live() { state == Active || state == Resolving }

    predicate Terminal() { state == Finalized || state == Cancelled || state == Voided }

    /** The market keeps the token until the auction is cancelled, voided, or its winner has claimed it. */
    predicate HoldsToken() { Live() || (state == Finalized && !assetClaimed) }

    function Token(): (Address, nat) { (terms.nft, terms.tokenId) }
  }

  /** The block-time observations behind the dynamic timeout. */
  datatype Network = Network(lastObservation: nat, movingAverage: nat)

  datatype World = World(
    now: nat,
    auctions: seq<Auction>,
    balance: nat,
    config: Dependencies,
    network: Network,
    engines: map<Address, Address>,
    avss: map<Address, Avss.Avs>,
    pots: map<Address, Pots.Pot>,
    vaults: map<Address, Vaults.Vault>,
    registries: map<Address, Registries.Registry>,
    owners: map<(Address, nat), Address>)
  {
    /** Auction ids run from one to the auction counter. */
    predicate Exists(id: nat) { 1 <= id <= |auctions| }

    function At(id: nat): Auction
      requires Exists(id)
    {
      auctions[id - 1]
    }

    function Put(id: nat, a: Auction): World
      requires Exists(id)
    {
      this.(auctions := auctions[id - 1 := a])
    }

    /** The vault's total for an auction, zero when it has no vault. */
    function ShieldedEscrow(vault: Address, id: nat): nat {
      if vault in vaults then vaults[vault].BookAt(id).total else 0
    }
  }
}
