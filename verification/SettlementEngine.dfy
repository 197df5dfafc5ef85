/** The settlement arithmetic: timeout window, cancellation slash, payouts and pro-rata shares. */
module SettlementEngine {
  import opened Prelude
  import opened Sums

  const BPS: nat := 10_000
  const MIN_CANCELLATION_SLASH_BPS: nat := 2_500
  const MIN_DYNAMIC_TIMEOUT: nat := 900
  const MAX_DYNAMIC_TIMEOUT: nat := 7_200
  const DYNAMIC_TIMEOUT_MULTIPLIER: nat := 90
  const KEEPER_FINALIZE_REWARD_BPS: nat := 20

  function DynamicTimeout(movingAverage: nat): nat {
    var window := if movingAverage == 0 then MIN_DYNAMIC_TIMEOUT else movingAverage * DYNAMIC_TIMEOUT_MULTIPLIER;
    if window < MIN_DYNAMIC_TIMEOUT then MIN_DYNAMIC_TIMEOUT
    else if window > MAX_DYNAMIC_TIMEOUT then MAX_DYNAMIC_TIMEOUT
    else window
  }

  function SlashBps(elapsed: nat, duration: nat): nat
    requires duration != 0
  {
    var bounded := if elapsed > duration then duration else elapsed;
    MIN_CANCELLATION_SLASH_BPS + bounded * (BPS - MIN_CANCELLATION_SLASH_BPS) / duration
  }

  function CancellationSlash(deposit: nat, elapsed: nat, duration: nat, totalEscrow: nat): nat {
    if deposit == 0 || totalEscrow == 0 then 0
    else if duration == 0 then deposit
    else deposit * SlashBps(elapsed, duration) / BPS
  }

  function WinningRefund(escrowed: nat, winningAmount: nat): nat {
    if winningAmount >= escrowed then 0 else escrowed - winningAmount
  }

  function CancellationPayout(deposit: nat, slash: nat): nat {
    if slash >= deposit then 0 else deposit - slash
  }

  function ProRataShare(contribution: nat, totalEscrow: nat, totalPot: nat): nat {
    if contribution == 0 || totalEscrow == 0 || totalPot == 0 then 0
    else contribution * totalPot / totalEscrow
  }

  /** The market's keeper reward, carved out of the seller's deposit. */
  function FinalizeReward(deposit: nat): nat {
    deposit * KEEPER_FINALIZE_REWARD_BPS / BPS
  }

  /** A positive deposit always outlives the keeper's reward, so a void with escrow slashes something. */
  lemma RewardBelowDeposit(deposit: nat)
    ensures deposit > 0 ==> FinalizeReward(deposit) < deposit
    ensures FinalizeReward(0) == 0
  {}

  lemma SlashBpsRange(elapsed: nat, duration: nat)
    requires duration != 0
    ensures MIN_CANCELLATION_SLASH_BPS <= SlashBps(elapsed, duration) <= BPS
    ensures elapsed >= duration ==> SlashBps(elapsed, duration) == BPS
  {
    var bounded := if elapsed > duration then duration else elapsed;
    var span := BPS - MIN_CANCELLATION_SLASH_BPS;
    MulMono(bounded, duration, span);
    DivBetween(bounded * span, duration, span);
    if bounded == duration {
      assert duration * span / duration == span by { DivExact(span, duration); }
    }
  }

  lemma SlashBpsMonotone(earlier: nat, later: nat, duration: nat)
    requires duration != 0 && earlier <= later
    ensures SlashBps(earlier, duration) <= SlashBps(later, duration)
  {
    var a := if earlier > duration then duration else earlier;
    var b := if later > duration then duration else later;
    var span := BPS - MIN_CANCELLATION_SLASH_BPS;
    MulMono(a, b, span);
    DivMono(a * span, b * span, duration);
  }

  /** A cancellation never slashes more than the deposit nor less than a quarter of it (rounded down),
      it takes the whole deposit once the auction has run its length, and waiting never makes it cheaper. */
  lemma CancellationSlashBounds(deposit: nat, earlier: nat, later: nat, duration: nat, totalEscrow: nat)
    requires earlier <= later
    ensures CancellationSlash(deposit, later, duration, totalEscrow) <= deposit
    ensures totalEscrow != 0 ==> deposit / 4 <= CancellationSlash(deposit, later, duration, totalEscrow)
    ensures totalEscrow != 0 && later >= duration ==> CancellationSlash(deposit, later, duration, totalEscrow) == deposit
    ensures CancellationSlash(deposit, earlier, duration, totalEscrow) <= CancellationSlash(deposit, later, duration, totalEscrow)
  {
    if deposit != 0 && totalEscrow != 0 && duration != 0 {
      SlashBpsRange(later, duration);
      SlashBpsMonotone(earlier, later, duration);
      var x, y := SlashBps(earlier, duration), SlashBps(later, duration);
      MulMono(x, y, deposit);
      MulMono(y, BPS, deposit);
      MulMono(MIN_CANCELLATION_SLASH_BPS, y, deposit);
    }
  }

  lemma TimeoutWithinBounds(movingAverage: nat)
    ensures MIN_DYNAMIC_TIMEOUT <= DynamicTimeout(movingAverage) <= MAX_DYNAMIC_TIMEOUT
  {}

  /** The window is 90 times the average, kept from 900 to 7200 seconds, and never falls as the average grows. */
  lemma TimeoutIsClamped(movingAverage: nat, later: nat)
    ensures DynamicTimeout(movingAverage) ==
            if movingAverage <= 10 then 900 else if movingAverage >= 80 then 7_200 else 90 * movingAverage
    ensures movingAverage <= later ==> DynamicTimeout(movingAverage) <= DynamicTimeout(later)
  {}

  /** The slash of an auction with escrow, in one formula: a quarter of the deposit and the elapsed part of the rest. */
  lemma CancellationSlashIs(deposit: nat, elapsed: nat, duration: nat, totalEscrow: nat)
    requires deposit > 0 && totalEscrow > 0 && elapsed <= duration && duration > 0
    ensures CancellationSlash(deposit, elapsed, duration, totalEscrow) == deposit * (2_500 + 7_500 * elapsed / duration) / 10_000
  {
    assert elapsed * 7_500 == 7_500 * elapsed;
  }

  // ---- pro-rata shares of a pot ----

  ghost function Shares<K(!new)>(m: map<K, nat>, totalEscrow: nat, totalPot: nat): (r: map<K, nat>) {
    map k | k in m :: ProRataShare(m[k], totalEscrow, totalPot)
  }

  /** s shares were paid for contributions m, each of the n of them rounded down by less than one unit of d. */
  ghost predicate Weighted(s: nat, m: nat, n: nat, d: nat, p: nat)
    requires d > 0
  {
    s * d <= m * p <= s * d + n * (d - 1)
  }

  /** The shares of any set of contributors fit in the pot's pro-rata slice for that set, and rounding
      loses less than one unit of escrow-weighted pot per contributor. */
  lemma {:induction false} SharesWeighted<K(!new)>(m: map<K, nat>, totalEscrow: nat, totalPot: nat)
    requires totalEscrow > 0
    ensures Weighted(Sum(Shares(m, totalEscrow, totalPot)), Sum(m), |m|, totalEscrow, totalPot)
    decreases m.Keys
  {
    if m.Keys == {} {
      NoShares(m, totalEscrow, totalPot);
    } else {
      var k := AnyKey(m);
      SharesWeighted(m - {k}, totalEscrow, totalPot);
      SharesSplit(m, k, totalEscrow, totalPot);
      ShareBounds(m[k], totalEscrow, totalPot);
      AddBounds(ProRataShare(m[k], totalEscrow, totalPot), m[k], 1,
                Sum(Shares(m - {k}, totalEscrow, totalPot)), Sum(m - {k}), |m - {k}|, totalEscrow, totalPot);
    }
  }

  lemma NoShares<K(!new)>(m: map<K, nat>, totalEscrow: nat, totalPot: nat)
    requires totalEscrow > 0 && m.Keys == {}
    ensures Weighted(Sum(Shares(m, totalEscrow, totalPot)), Sum(m), |m|, totalEscrow, totalPot)
  {
    assert |m| == 0 && Sum(m) == 0 && Sum(Shares(m, totalEscrow, totalPot)) == 0;
  }

  /** Two weighted bounds add up. */
  lemma AddBounds(s1: nat, m1: nat, n1: nat, s2: nat, m2: nat, n2: nat, d: nat, p: nat)
    requires d > 0
    requires Weighted(s1, m1, n1, d, p) && Weighted(s2, m2, n2, d, p)
    ensures Weighted(s1 + s2, m1 + m2, n1 + n2, d, p)
  {
    Distribute(s1, s2, d);
    Distribute(m1, m2, p);
    Distribute(n1, n2, d - 1);
  }

  lemma SharesSplit<K(!new)>(m: map<K, nat>, k: K, totalEscrow: nat, totalPot: nat)
    requires k in m
    ensures Sum(m) == m[k] + Sum(m - {k})
    ensures |m| == 1 + |m - {k}|
    ensures Sum(Shares(m, totalEscrow, totalPot)) ==
            ProRataShare(m[k], totalEscrow, totalPot) + Sum(Shares(m - {k}, totalEscrow, totalPot))
  {
    hide ProRataShare;
    var s := Shares(m, totalEscrow, totalPot);
    SumTake(m, k);
    SumTake(s, k);
    assert s - {k} == Shares(m - {k}, totalEscrow, totalPot);
    assert m.Keys == (m - {k}).Keys + {k};
  }

  /** When the contributions fit in the escrow the pot was registered with, all the shares fit in the pot. */
  lemma SharesFitPot<K(!new)>(m: map<K, nat>, totalEscrow: nat, totalPot: nat)
    requires Sum(m) <= totalEscrow
    ensures Sum(Shares(m, totalEscrow, totalPot)) <= totalPot
  {
    var s := Shares(m, totalEscrow, totalPot);
    if totalEscrow == 0 {
      SumZero(s);
    } else {
      SharesWeighted(m, totalEscrow, totalPot);
      MulMono(Sum(m), totalEscrow, totalPot);
      Cancel(Sum(s), totalPot + 1, totalEscrow);
    }
  }

  /** When every contribution is still there, rounding strands fewer wei than there are contributors. */
  lemma SharesDust<K(!new)>(m: map<K, nat>, totalEscrow: nat, totalPot: nat)
    requires Sum(m) == totalEscrow && totalEscrow > 0
    ensures totalPot < Sum(Shares(m, totalEscrow, totalPot)) + |m|
  {
    SharesWeighted(m, totalEscrow, totalPot);
    assert m.Keys != {};
    DustBound(Sum(Shares(m, totalEscrow, totalPot)), |m|, totalEscrow, totalPot);
  }

  lemma DustBound(s: nat, n: nat, d: nat, p: nat)
    requires d > 0 && n > 0 && Weighted(s, d, n, d, p)
    ensures p < s + n
  {
    Distribute(s, n, d);
    assert n * d == n * (d - 1) + n;
    assert p * d == d * p;
    Cancel(p, s + n, d);
  }

  lemma ShareBounds(contribution: nat, totalEscrow: nat, totalPot: nat)
    requires totalEscrow > 0
    ensures Weighted(ProRataShare(contribution, totalEscrow, totalPot), contribution, 1, totalEscrow, totalPot)
  {
    FloorBounds(contribution * totalPot, totalEscrow);
    if contribution == 0 || totalPot == 0 {
      assert contribution * totalPot == 0;
    }
  }

  lemma FloorBounds(n: nat, d: nat)
    requires d > 0
    ensures n / d * d <= n <= n / d * d + (d - 1)
  {
    assert n == n / d * d + n % d;
  }

  // ---- arithmetic the solver needs spelled out ----

  lemma MulMono(a: nat, b: nat, c: nat)
    requires a <= b
    ensures a * c <= b * c
    ensures c * a <= c * b
  {
    assert b * c == a * c + (b - a) * c;
  }

  lemma Distribute(a: nat, b: nat, c: nat)
    ensures (a + b) * c == a * c + b * c
    ensures c * (a + b) == c * a + c * b
  {}

  /** A common positive factor can be dropped from a strict comparison. */
  lemma Cancel(a: nat, b: nat, d: nat)
    requires a * d < b * d
    ensures a < b
  {
    if b <= a { MulMono(b, a, d); }
  }

  /** A quotient is at most q when the dividend stays below the next multiple. */
  lemma QuotientBelow(x: nat, q: nat, d: nat)
    requires x * d < q * d + d
    ensures x <= q
  {
    Distribute(q, 1, d);
    Cancel(x, q + 1, d);
  }

  lemma DivMono(a: nat, b: nat, d: nat)
    requires a <= b && d > 0
    ensures a / d <= b / d
  {
    FloorBounds(a, d);
    FloorBounds(b, d);
    QuotientBelow(a / d, b / d, d);
  }

  lemma DivExact(q: nat, d: nat)
    requires d > 0
    ensures d * q / d == q
  {
    FloorBounds(d * q, d);
    assert d * q == q * d;
    QuotientBelow(q, d * q / d, d);
    QuotientBelow(d * q / d, q, d);
  }

  lemma DivBetween(n: nat, d: nat, q: nat)
    requires d > 0 && n <= d * q
    ensures n / d <= q
  {
    DivMono(n, d * q, d);
    DivExact(q, d);
  }
}
