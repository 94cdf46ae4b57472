/**
 * The balance arithmetic that closes a match: the winner's payout and the
 * release of the locked stake. Balances are exact reals; the stored row is an
 * input and the row to write back is the result.
 */
module Settlement {
  import opened Cards

  /** A stored balance: funds free to use and funds locked in a running match. */
  datatype Balance = Balance(available: real, locked: real)

  function Max(a: real, b: real): (m: real)
    ensures m >= a && m >= b && (m == a || m == b)
  {
    if a >= b then a else b
  }

  /** The balance as read: a missing row counts as zero in both fields. */
  function Loaded(row: Option<Balance>): (b: Balance)
    ensures row.Some? ==> b == row.value
    ensures row.None? ==> b.available == 0.0 && b.locked == 0.0
  {
    match row
    case Some(b) => b
    case None => Balance(0.0, 0.0)
  }

  /**
   * The row written when the match ends with `winner`: nothing without a signed-in
   * user; otherwise the stake is released from `locked`, never below zero, and a
   * win by the player adds twice the stake to `available`.
   */
  function Settle(signedIn: bool, row: Option<Balance>, stake: real, winner: Seat): (r: Option<Balance>)
    ensures r.Some? <==> signedIn
    ensures r.Some? ==> r.value.locked >= 0.0
    ensures r.Some? && winner == Player ==> r.value.available == Loaded(row).available + 2.0 * stake
    ensures r.Some? && winner == Bot ==> r.value.available == Loaded(row).available
    ensures r.Some? ==> r.value.locked == Max(0.0, Loaded(row).locked - stake)
    ensures r.Some? && stake >= 0.0 && Loaded(row).locked >= 0.0 ==> r.value.locked <= Loaded(row).locked
  {
    if !signedIn then None
    else
      var b := Loaded(row);
      var locked := Max(0.0, b.locked - stake);
      if winner == Player then Some(Balance(b.available + 2.0 * stake, locked))
      else Some(Balance(b.available, locked))
  }

  /**
   * When the stake was locked in full, settling moves the total by exactly one stake:
   * the player gains the bot's stake on a win and loses its own on a loss.
   */
  lemma SettleTotal(row: Option<Balance>, stake: real, winner: Seat)
    requires Loaded(row).locked >= stake
    ensures var b := Loaded(row);
      var r := Settle(true, row, stake, winner).value;
      r.available + r.locked == b.available + b.locked + (if winner == Player then stake else -stake)
  {
  }
}
