/**
 * Model of src/users/user.go: a user is an identity plus a balance map keyed by
 * asset symbol. The map is updated in place by AddBalance.
 *
 * Balances are float64 in the source; they are `real` here, so rounding is not captured.
 */
module Users {

  /** user.Asset: an asset symbol such as "USD" or "BTC". */
  type Asset = string

  /** A uuid.UUID: sixteen bytes read as one 128-bit number. The nil UUID is 0. */
  newtype UUID = x: int | 0 <= x < 0x1_0000_0000_0000_0000_0000_0000_0000_0000

  const NilUUID: UUID := 0

  /** Reading a Go map at a missing key yields the zero value, so a missing asset reads as 0. */
  function BalanceOf(balance: map<Asset, real>, asset: Asset): real
  {
    if asset in balance then balance[asset] else 0.0
  }

  /**
   * The balance map after crediting `amount` of `asset`, defined as "add to the
   * balance, reading a missing asset as zero". The ensures clauses are the two
   * branches of AddBalance: an existing entry grows by `amount`, a missing one is
   * created holding exactly `amount`; nothing else changes.
   */
  function Credited(balance: map<Asset, real>, asset: Asset, amount: real): (r: map<Asset, real>)
    ensures r.Keys == balance.Keys + {asset}
    ensures asset in balance ==> r[asset] == balance[asset] + amount
    ensures asset !in balance ==> r[asset] == amount
    ensures forall a :: a in balance && a != asset ==> r[a] == balance[a]
  {
    balance[asset := BalanceOf(balance, asset) + amount]
  }

  /** There is no sign check: a large enough negative amount drives the balance below zero. */
  lemma CreditedHasNoSignCheck(balance: map<Asset, real>, asset: Asset, amount: real)
    requires amount < 0.0 && BalanceOf(balance, asset) < -amount
    ensures BalanceOf(Credited(balance, asset, amount), asset) < 0.0
  {
  }

  class User {
    const userId: UUID
    var balance: map<Asset, real>

    /** NewUser: a fresh identity with an empty balance map. The fresh id from uuid.New() is a parameter. */
    constructor (id: UUID)
      ensures userId == id && balance == map[]
    {
      userId := id;
      balance := map[];
    }

    /** Adds `amount` of `asset`, creating the entry when the asset is not yet held. */
    method AddBalance(asset: Asset, amount: real)
      modifies this
      ensures balance == Credited(old(balance), asset, amount)
    {
      if asset in balance {
        balance := balance[asset := balance[asset] + amount];
      } else {
        balance := balance[asset := amount];
      }
    }
  }
}
