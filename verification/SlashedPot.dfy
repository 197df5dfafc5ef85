/** The pot that compensates public bidders out of a slashed deposit. */
module SlashedPot {
  import opened Prelude
  import opened SettlementEngine

  datatype Entry = Entry(totalEscrow: nat, totalSlash: nat)

  datatype Pot = Pot(balance: nat, entries: map<nat, Entry>, claimed: map<nat, set<Address>>) {

    function EntryAt(id: nat): Entry {
      if id in entries then entries[id] else Entry(0, 0)
    }

    function Claimed(id: nat): set<Address> {
      if id in claimed then claimed[id] else {}
    }
  }

  const EMPTY_POT := Pot(0, map[], map[])

  /** The first registration fixes the escrow total; every registration adds to the slash. */
  function RegisterSlash(p: Pot, id: nat, totalEscrow: nat, value: nat): Pot {
    var entry := if id in p.entries then p.entries[id] else Entry(totalEscrow, 0);
    p.(balance := p.balance + value,
       entries := p.entries[id := entry.(totalSlash := entry.totalSlash + value)])
  }

  function PreviewClaim(p: Pot, id: nat, contribution: nat): nat {
    ProRataShare(contribution, p.EntryAt(id).totalEscrow, p.EntryAt(id).totalSlash)
  }

  function ClaimFor(p: Pot, id: nat, recipient: Address, contribution: nat, accepts: bool): Tx<(Pot, nat)> {
    if recipient in p.Claimed(id) then Reverted(CompensationAlreadyClaimed) else
    var amount := PreviewClaim(p, id, contribution);
    :- Need(amount == 0 || (accepts && amount <= p.balance), NativeTransferFailed);
    Committed((p.(balance := p.balance - amount, claimed := p.claimed[id := p.Claimed(id) + {recipient}]), amount))
  }
}
