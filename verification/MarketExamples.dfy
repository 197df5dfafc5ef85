/** A market set up from nothing, and one shielded bidder in it: the runs behind the counterexamples. */
module MarketExamples {
  import opened Prelude
  import opened CiphertextEncoding
  import opened SettlementEngine
  import opened MarketState
  import opened MarketTransactions
  import Vaults = ShieldedEscrowVault
  import Pots = SlashedPot
  import Avss = EigenLayerAvs
  import Registries = ShieldedIdentityRegistry

  const START: nat := 1
  const POT: Address := 10
  const VAULT: Address := 20
  const REGISTRY: Address := 30
  const OTHER_REGISTRY: Address := 31
  const ENGINE: Address := 40
  const AVS: Address := 50
  const OPERATOR: Address := 60
  const NFT: Address := 70
  const SELLER: Caller := 80
  const ANYONE: Caller := 81

  /** One shielded bidder: its identity, its commitment and the account that signs its claims. */
  const IDENTITY: Word := 7
  const COMMITMENT: Word := 8
  const AUTHORITY: Address := 90

  function Service(): Avss.Avs {
    Avss.Avs({OPERATOR}, map[], 1, 1)
  }

  // ---- calls, one after the other ----

  function Genesis0(): World {
    Genesis(START, LocalPrototype, POT)
  }

  function Deployments(): seq<Call> {
    [] + [DeployVault(VAULT)] + [DeployRegistry(REGISTRY)]
  }

  /** An attestation service and the seller's two tokens. */
  function Surroundings(): seq<Call> {
    Deployments() + [ConfigureEngine(ENGINE, AVS)] + [ConfigureAvs(AVS, Service())]
    + [MoveToken((NFT, 1), SELLER)] + [MoveToken((NFT, 2), SELLER)]
  }

  /** The market's owner configures it. */
  function SetUp(): seq<Call> {
    Surroundings() + [SetVault(VAULT)] + [SetRegistry(REGISTRY)] + [SetEngine(ENGINE)]
  }

  function Opening(tokenId: nat): Call {
    Create(SELLER, 100, NFT, tokenId, MIN_AUCTION_DURATION, 0, 100, true)
  }

  function Locking(): Call {
    ShieldedLock(5, 1, IDENTITY, COMMITMENT, AUTHORITY)
  }

  /** The first auction, with five wei of shielded escrow in it. */
  function LockedCalls(): seq<Call> {
    SetUp() + [Opening(1)] + [Locking()]
  }

  function OwnDeps(): Dependencies {
    Dependencies(LocalPrototype, ENGINE, POT, VAULT, REGISTRY)
  }

  function Configured(): World {
    World(START, [], 0, OwnDeps(), Network(0, 0), map[ENGINE := AVS], map[AVS := Service()],
          map[POT := Pots.EMPTY_POT], map[VAULT := Vaults.EMPTY_VAULT], map[REGISTRY := Registries.EMPTY_REGISTRY],
          map[(NFT, 1) := SELLER, (NFT, 2) := SELLER])
  }

  function TermsOf(tokenId: nat, now: nat): Terms {
    Terms(NFT, tokenId, SELLER, now, now + MIN_AUCTION_DURATION, 100, 0, OwnDeps())
  }

  function LockedVault(): Vaults.Vault {
    Vaults.Vault(5, map[COMMITMENT := Vaults.Deposit(1, 5, false, AUTHORITY)], map[1 := Vaults.Book(5, 0, false, 0)], {})
  }

  function BoundRegistry(): Registries.Registry {
    Registries.Registry(map[(1, IDENTITY) := COMMITMENT], map[(1, COMMITMENT) := IDENTITY], map[])
  }

  /** The first auction open, one commitment of five wei locked in it. */
  function Locked(): World {
    Configured().(auctions := [NewAuction(TermsOf(1, START))], balance := 100, network := Network(START, 0),
                  owners := map[(NFT, 1) := MARKET, (NFT, 2) := SELLER],
                  vaults := map[VAULT := LockedVault()], registries := map[REGISTRY := BoundRegistry()])
  }

  ghost predicate Reaches(calls: seq<Call>, w: World) {
    Run(Genesis0(), calls) == w
  }

  lemma Then(calls: seq<Call>, w: World, c: Call)
    requires Reaches(calls, w) && Step(w, c).Committed?
    ensures Reaches(calls + [c], Step(w, c).value)
  {
    assert (calls + [c])[..|calls|] == calls;
  }

  predicate Deploys(c: Call) {
    c.DeployVault? || c.DeployRegistry? || c.ConfigureEngine? || c.ConfigureAvs? || c.MoveToken? || c.Advance?
  }

  lemma DeployingStep(w: World, c: Call)
    requires Deploys(c)
    ensures Step(w, c) == Environment(w, c)
  {}

  predicate Configures(c: Call) {
    c.SetVault? || c.SetRegistry? || c.SetEngine?
  }

  lemma OwnerStep(w: World, c: Call)
    requires Configures(c)
    ensures Step(w, c) == Ambient(w, c)
  {}

  lemma Configure(calls: seq<Call>, w: World, c: Call)
    requires Reaches(calls, w) && Configures(c) && Ambient(w, c).Committed?
    ensures Reaches(calls + [c], Ambient(w, c).value)
  {
    hide Reaches, Step, Ambient;
    OwnerStep(w, c);
    Then(calls, w, c);
  }

  lemma Deploy(calls: seq<Call>, w: World, c: Call)
    requires Reaches(calls, w) && Deploys(c) && Environment(w, c).Committed?
    ensures Reaches(calls + [c], Environment(w, c).value)
  {
    hide Reaches, Step, Environment;
    DeployingStep(w, c);
    Then(calls, w, c);
  }

  function Deployed(): World {
    Genesis0().(vaults := map[VAULT := Vaults.EMPTY_VAULT], registries := map[REGISTRY := Registries.EMPTY_REGISTRY])
  }

  function Surrounded(): World {
    Deployed().(engines := map[ENGINE := AVS], avss := map[AVS := Service()],
                owners := map[(NFT, 1) := SELLER, (NFT, 2) := SELLER])
  }

  lemma Starts()
    ensures Reaches([], Genesis0())
  {}

  lemma DeploymentsRun()
    ensures Reaches(Deployments(), Deployed())
  {
    Starts();
    hide Reaches, Step;
    var w0 := Genesis0();
    Deploy([], w0, DeployVault(VAULT));
    var r1, w1 := [] + [DeployVault(VAULT)], Environment(w0, DeployVault(VAULT)).value;
    Deploy(r1, w1, DeployRegistry(REGISTRY));
    assert Deployed() == Environment(w1, DeployRegistry(REGISTRY)).value;
  }

  lemma SurroundingsRun()
    ensures Reaches(Surroundings(), Surrounded())
  {
    DeploymentsRun();
    hide Reaches, Deployments, Step;
    var r0, w0 := Deployments(), Deployed();
    Deploy(r0, w0, ConfigureEngine(ENGINE, AVS));
    var r1, w1 := r0 + [ConfigureEngine(ENGINE, AVS)], Environment(w0, ConfigureEngine(ENGINE, AVS)).value;
    Deploy(r1, w1, ConfigureAvs(AVS, Service()));
    var r2, w2 := r1 + [ConfigureAvs(AVS, Service())], Environment(w1, ConfigureAvs(AVS, Service())).value;
    Deploy(r2, w2, MoveToken((NFT, 1), SELLER));
    var r3, w3 := r2 + [MoveToken((NFT, 1), SELLER)], Environment(w2, MoveToken((NFT, 1), SELLER)).value;
    Deploy(r3, w3, MoveToken((NFT, 2), SELLER));
  }

  lemma SetUpRuns()
    ensures Reaches(SetUp(), Configured())
  {
    SurroundingsRun();
    hide Reaches, Surroundings, Step;
    var r0, w0 := Surroundings(), Surrounded();
    Configure(r0, w0, SetVault(VAULT));
    var r1, w1 := r0 + [SetVault(VAULT)], Ambient(w0, SetVault(VAULT)).value;
    Configure(r1, w1, SetRegistry(REGISTRY));
    var r2, w2 := r1 + [SetRegistry(REGISTRY)], Ambient(w1, SetRegistry(REGISTRY)).value;
    Configure(r2, w2, SetEngine(ENGINE));
  }

  function Opened(): World {
    Configured().(auctions := [NewAuction(TermsOf(1, START))], balance := 100, network := Network(START, 0),
                  owners := map[(NFT, 1) := MARKET, (NFT, 2) := SELLER])
  }

  lemma Opens()
    ensures Step(Configured(), Opening(1)) == Committed(Opened())
  {
    assert Opened().owners == Configured().owners[(NFT, 1) := MARKET];
    assert Step(Configured(), Opening(1)).Committed?;
    var w' := Step(Configured(), Opening(1)).value;
    assert w'.auctions == Opened().auctions;
    assert w'.network == Opened().network;
    assert w' == Opened();
  }

  lemma Locks()
    ensures Step(Opened(), Locking()) == Committed(Locked())
  {
    assert Step(Opened(), Locking()).Committed?;
    var w' := Step(Opened(), Locking()).value;
    assert w'.network == Locked().network;
    assert w'.registries == Locked().registries;
    assert w'.vaults == Locked().vaults;
    assert w'.auctions == Locked().auctions;
  }

  lemma LockedRuns()
    ensures Reaches(LockedCalls(), Locked())
  {
    SetUpRuns();
    Opens();
    Locks();
    hide Reaches, SetUp, Step;
    Then(SetUp(), Configured(), Opening(1));
    Then(SetUp() + [Opening(1)], Opened(), Locking());
  }

  // ---- the shielded bidder bids all of its commitment and wins ----

  function Handle(): Word {
    EncodeEuint96(5)
  }

  function Bidding(): Call {
    ShieldedBid(1, COMMITMENT, Handle(), START, true)
  }

  function BidAuction(): Auction {
    NewAuction(TermsOf(1, START)).(bidCount := 1, commitments := [COMMITMENT], shieldedBids := map[COMMITMENT := Handle()])
  }

  const END: nat := START + MIN_AUCTION_DURATION

  function ResolvingCalls(): seq<Call> {
    LockedCalls() + [Bidding()] + [Advance(MIN_AUCTION_DURATION)] + [Trigger(ANYONE, 1, 0)]
  }

  function RequestOne(): Avss.RequestId {
    Avss.EngineRequest(ENGINE, MARKET, 1, 1, END, 1, 0)
  }

  function ResolvingAuction(): Auction {
    BidAuction().(state := Resolving, resolvingSince := END,
                  keeper := Some(Finalization(ANYONE, FinalizeReward(100), 1, 0, false)),
                  request := Some(Request(RequestOne(), END)))
  }

  /** The first auction resolving, with one shielded bid of five wei. */
  function InResolution(): World {
    Locked().(now := END, auctions := [ResolvingAuction()], network := Network(END, MIN_AUCTION_DURATION))
  }

  lemma BidsFive()
    ensures Step(Locked(), Bidding()) == Committed(Locked().(auctions := [BidAuction()]))
  {
    assert Step(Locked(), Bidding()).Committed?;
    var w' := Step(Locked(), Bidding()).value;
    assert w'.network == Locked().network;
    assert w'.auctions[0].commitments == [COMMITMENT];
    assert w'.auctions == [BidAuction()];
  }

  lemma Triggers()
    ensures var w := Locked().(now := END, auctions := [BidAuction()]);
            Step(w, Trigger(ANYONE, 1, 0)) == Committed(InResolution())
  {
    var w := Locked().(now := END, auctions := [BidAuction()]);
    assert Step(w, Trigger(ANYONE, 1, 0)).Committed?;
    var w' := Step(w, Trigger(ANYONE, 1, 0)).value;
    assert w'.network == Network(END, MIN_AUCTION_DURATION);
    assert w'.auctions == [ResolvingAuction()];
  }

  lemma ResolvingRuns()
    ensures Reaches(ResolvingCalls(), InResolution())
  {
    LockedRuns();
    BidsFive();
    Triggers();
    hide Reaches, LockedCalls, Step, Locked, BidAuction, InResolution;
    var r0, w0 := LockedCalls(), Locked();
    Then(r0, w0, Bidding());
    var w1 := w0.(auctions := [BidAuction()]);
    Deploy(r0 + [Bidding()], w1, Advance(MIN_AUCTION_DURATION));
    var w2 := w1.(now := END);
    assert Locked().now == START by { StartsAt(); }
    Then(r0 + [Bidding()] + [Advance(MIN_AUCTION_DURATION)], w2, Trigger(ANYONE, 1, 0));
  }

  lemma StartsAt()
    ensures Locked().now == START
  {}

  // ---- attested, it wins; its commitment is empty, and somebody locks it anew in the seller's next auction ----

  function Attested(): Avss.Statement {
    Avss.Statement(1, RequestOne(), IDENTITY, Handle(), 5)
  }

  function Proof(): Avss.Envelope {
    Avss.Envelope(Attested(), [OPERATOR], [Avss.Signature(map[Avss.Digest(AVS, MARKET, Attested()) := OPERATOR])])
  }

  function Submission(): Call {
    ResolveShielded(1, IDENTITY, Handle(), 5, Proof())
  }

  lemma ProofHolds()
    ensures Avss.Verify(Service(), AVS, MARKET, Attested(), Proof()) == Committed((Service(), true))
  {
    assert Proof().operators[..0] == [];
    assert Avss.Scan(Service(), Avss.Digest(AVS, MARKET, Attested()), Proof(), 1) == Avss.Accepted;
  }

  function WonAuction(): Auction {
    ResolvingAuction().(state := Finalized, outcome := Outcome(ZERO, Handle(), 5, IDENTITY), request := None, refundsUnlocked := true)
  }

  function Won(): World {
    InResolution().(
      auctions := [WonAuction()], balance := 105,
      vaults := map[VAULT := Vaults.Vault(0, map[COMMITMENT := Vaults.Deposit(1, 0, false, AUTHORITY)],
                                           map[1 := Vaults.Book(0, 0, true, COMMITMENT)], {})],
      registries := map[REGISTRY := BoundRegistry().(winners := map[1 := IDENTITY])])
  }

  function SettledVault(): Vaults.Vault {
    Vaults.Vault(0, map[COMMITMENT := Vaults.Deposit(1, 0, false, AUTHORITY)], map[1 := Vaults.Book(0, 0, false, COMMITMENT)], {})
  }

  lemma VaultPays()
    ensures Vaults.SettleWinning(LockedVault(), 1, COMMITMENT, 5) == Committed(SettledVault())
    ensures Vaults.Unlock(SettledVault(), 1) == Won().vaults[VAULT]
  {
    assert LockedVault().deposits[COMMITMENT := Vaults.Deposit(1, 0, false, AUTHORITY)] == SettledVault().deposits;
    assert LockedVault().books[1 := Vaults.Book(0, 0, false, COMMITMENT)] == SettledVault().books;
    assert Vaults.Unlock(SettledVault(), 1).books == map[1 := Vaults.Book(0, 0, true, COMMITMENT)];
  }

  lemma Passes()
    ensures CheckShieldedResolution(InResolution(), 1, IDENTITY, Handle(), 5) == Committed(COMMITMENT)
  {}

  /** Just before the refunds are unlocked. */
  function Paid(): World {
    Won().(auctions := [WonAuction().(refundsUnlocked := false)], vaults := map[VAULT := SettledVault()],
           registries := map[REGISTRY := BoundRegistry()])
  }

  lemma Unlocks()
    ensures OpenRefunds(Paid(), 1).(registries := Won().registries) == Won()
  {
    VaultPays();
    hide Vaults.Unlock, SettledVault;
    var after := OpenRefunds(Paid(), 1);
    assert after.auctions == [WonAuction()];
    assert after.vaults == Won().vaults;
  }

  lemma Marks()
    ensures Registries.MarkWinner(BoundRegistry(), 1, IDENTITY) == Committed(Won().registries[REGISTRY])
    ensures InResolution().registries[REGISTRY := Won().registries[REGISTRY]] == Won().registries
  {}

  /** The parts of an accepted shielded resolution put together. */
  lemma Accepts(w: World, id: nat, identity: Word, ciphertext: Word, amount: nat, proof: Avss.Envelope, commitment: Word,
                vault: Vaults.Vault, registry: Registries.Registry)
    requires CheckShieldedResolution(w, id, identity, ciphertext, amount) == Committed(commitment)
    requires w.Exists(id) && w.At(id).request.Some? && w.At(id).terms.deps.vault in w.vaults && w.At(id).terms.deps.registry in w.registries
    requires var s := Avss.Statement(id, w.At(id).request.value.requestId, identity, ciphertext, amount);
             VerifyProof(w, w.At(id).terms.deps.engine, s, proof) == Committed((w, true))
    requires Vaults.SettleWinning(w.vaults[w.At(id).terms.deps.vault], id, commitment, amount) == Committed(vault)
    requires Registries.MarkWinner(w.registries[w.At(id).terms.deps.registry], id, identity) == Committed(registry)
    ensures var a, deps := w.At(id), w.At(id).terms.deps;
            var a' := a.(state := Finalized, outcome := Outcome(ZERO, ciphertext, amount, identity), request := None);
            var paid := Observed(w).Put(id, a').(vaults := w.vaults[deps.vault := vault], balance := w.balance + amount);
            SubmitShieldedResolution(w, id, identity, ciphertext, amount, proof) ==
            Committed((OpenRefunds(paid, id).(registries := w.registries[deps.registry := registry]), true))
  {
    hide CheckShieldedResolution, VerifyProof, Vaults.SettleWinning, Registries.MarkWinner, OpenRefunds, Observe;
  }

  lemma PaidOut()
    ensures var w := InResolution();
            var a' := w.At(1).(state := Finalized, outcome := Outcome(ZERO, Handle(), 5, IDENTITY), request := None);
            Observed(w).Put(1, a').(vaults := w.vaults[VAULT := SettledVault()], balance := w.balance + 5) == Paid()
  {
    hide Handle, SettledVault, LockedVault, RequestOne;
    var w := InResolution();
    assert Observe(w.network, w.now) == w.network;
    var a' := w.At(1).(state := Finalized, outcome := Outcome(ZERO, Handle(), 5, IDENTITY), request := None);
    assert a' == WonAuction().(refundsUnlocked := false);
    assert Observed(w).Put(1, a').auctions == [a'];
  }

  lemma Wins()
    ensures SubmitShieldedResolution(InResolution(), 1, IDENTITY, Handle(), 5, Proof()) == Committed((Won(), true))
  {
    Passes();
    ProofHolds();
    VaultPays();
    Marks();
    Unlocks();
    PaidOut();
    hide CheckShieldedResolution, Avss.Verify, Vaults.SettleWinning, Vaults.Unlock, Registries.MarkWinner, SubmitShieldedResolution,
      OpenRefunds, Proof, Handle, LockedVault, SettledVault, BoundRegistry, Paid, Observe;
    var w := InResolution();
    assert VerifyProof(w, ENGINE, Attested(), Proof()) == Committed((w, true)) by { assert w.avss[AVS := Service()] == w.avss; }
    Accepts(w, 1, IDENTITY, Handle(), 5, Proof(), COMMITMENT, SettledVault(), Won().registries[REGISTRY]);
  }

  function WonCalls(): seq<Call> {
    ResolvingCalls() + [Submission()]
  }

  lemma WonRuns()
    ensures Reaches(WonCalls(), Won())
  {
    ResolvingRuns();
    Wins();
    hide Reaches, ResolvingCalls, InResolution, Won, SubmitShieldedResolution, Handle, Proof;
    SubmissionStep(InResolution());
    hide Step;
    Then(ResolvingCalls(), InResolution(), Submission());
  }

  lemma SubmissionStep(w: World)
    requires SubmitShieldedResolution(w, 1, IDENTITY, Handle(), 5, Proof()).Committed?
    ensures Step(w, Submission()) == Committed(SubmitShieldedResolution(w, 1, IDENTITY, Handle(), 5, Proof()).value.0)
  {
    hide SubmitShieldedResolution, Handle, Proof;
  }

  /** The seller's second auction. */
  function Reopened(): World {
    Won().(auctions := [WonAuction(), NewAuction(TermsOf(2, END))], balance := 205,
           owners := map[(NFT, 1) := MARKET, (NFT, 2) := MARKET])
  }

  function Relocking(): Call {
    ShieldedLock(1, 2, 9, COMMITMENT, 91)
  }

  function LostCalls(): seq<Call> {
    WonCalls() + [Opening(2)] + [Relocking()]
  }

  function RelockedVault(): Vaults.Vault {
    Vaults.Vault(1, map[COMMITMENT := Vaults.Deposit(2, 1, false, 91)],
                 map[1 := Vaults.Book(0, 0, true, COMMITMENT), 2 := Vaults.Book(1, 0, false, 0)], {})
  }

  /** The first winner's commitment belongs to the second auction now. */
  function Lost(): World {
    Reopened().(vaults := map[VAULT := RelockedVault()],
                registries := map[REGISTRY := Won().registries[REGISTRY].(
                  commitments := map[(1, IDENTITY) := COMMITMENT, (2, 9) := COMMITMENT],
                  identities := map[(1, COMMITMENT) := IDENTITY, (2, COMMITMENT) := 9])])
  }

  lemma Reopens()
    ensures Step(Won(), Opening(2)) == Committed(Reopened())
  {
    hide ResolvingAuction;
    assert Reopened().owners == Won().owners[(NFT, 2) := MARKET];
    assert Step(Won(), Opening(2)).Committed?;
    var w' := Step(Won(), Opening(2)).value;
    assert w'.auctions == Reopened().auctions;
    assert w'.network == Reopened().network;
  }

  lemma RelockedRow()
    ensures Vaults.Lock(Won().vaults[VAULT], 2, COMMITMENT, 1, 91) == Committed(RelockedVault())
    ensures Registries.Bind(Won().registries[REGISTRY], 2, 9, COMMITMENT) == Committed(Lost().registries[REGISTRY])
  {
    var v := Won().vaults[VAULT];
    assert v.deposits[COMMITMENT := Vaults.Deposit(2, 1, false, 91)] == RelockedVault().deposits;
    assert v.books[2 := Vaults.Book(1, 0, false, 0)] == RelockedVault().books;
  }

  lemma LockStep(w: World, vault: Vaults.Vault, registry: Registries.Registry)
    requires w.Exists(2) && w.At(2).state == Active && w.now < w.At(2).terms.endTime
    requires w.At(2).terms.deps.vault in w.vaults && w.At(2).terms.deps.registry in w.registries
    requires Registries.Bind(w.registries[w.At(2).terms.deps.registry], 2, 9, COMMITMENT) == Committed(registry)
    requires Vaults.Lock(w.vaults[w.At(2).terms.deps.vault], 2, COMMITMENT, 1, 91) == Committed(vault)
    ensures Step(w, Relocking()) ==
            Committed(Observed(w).(registries := w.registries[w.At(2).terms.deps.registry := registry],
                                   vaults := w.vaults[w.At(2).terms.deps.vault := vault]))
  {
    hide Vaults.Lock, Registries.Bind, Observe;
  }

  lemma Relocks()
    ensures Step(Reopened(), Relocking()) == Committed(Lost())
  {
    RelockedRow();
    var w := Reopened();
    assert w.vaults[VAULT := RelockedVault()] == Lost().vaults;
    assert w.registries[REGISTRY := Lost().registries[REGISTRY]] == Lost().registries;
    assert Observe(w.network, w.now) == w.network;
    hide Step, Vaults.Lock, Registries.Bind, ResolvingAuction, RelockedVault, Observe;
    LockStep(w, RelockedVault(), Lost().registries[REGISTRY]);
  }

  lemma LostRuns()
    ensures Reaches(LostCalls(), Lost())
  {
    WonRuns();
    Reopens();
    Relocks();
    hide Reaches, WonCalls, Step, Reopened, Lost, Won;
    Then(WonCalls(), Won(), Opening(2));
    Then(WonCalls() + [Opening(2)], Reopened(), Relocking());
  }
}
