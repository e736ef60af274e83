/** The trade and the contract it carries, as far as address resolution and
    the lock-time step see them. */
module TradeModel {
  import opened JavaTypes
  import opened Hex

  /** The signed contract: each party's multisig public key (null until the
      parties have exchanged keys) and each party's payout address string. */
  datatype Contract = Contract(
    buyerMultiSigPubKey: Option<seq<byte>>,
    sellerMultiSigPubKey: Option<seq<byte>>,
    buyerPayoutAddressString: JString,
    sellerPayoutAddressString: JString)

  /** The local party's multisig key: the buyer's when the local role is
      buyer, the seller's otherwise. */
  function OwnMultiSigPubKey(c: Contract, isMyRoleBuyer: bool): (key: Option<seq<byte>>)
  {
    if isMyRoleBuyer then c.buyerMultiSigPubKey else c.sellerMultiSigPubKey
  }

  /** The local party's payout address, chosen by the same role flag. */
  function OwnPayoutAddressString(c: Contract, isMyRoleBuyer: bool): (payout: JString)
  {
    if isMyRoleBuyer then c.buyerPayoutAddressString else c.sellerPayoutAddressString
  }

  /** The same contract seen from the other side: buyer and seller fields
      exchanged. */
  function SwapRoles(c: Contract): (s: Contract)
  {
    Contract(c.sellerMultiSigPubKey, c.buyerMultiSigPubKey,
             c.sellerPayoutAddressString, c.buyerPayoutAddressString)
  }

  /** The two roles are treated alike: playing the other role on the swapped
      contract selects the same multisig key, and swapping twice is no swap. */
  lemma SwapRolesMultiSigPubKey(c: Contract, isMyRoleBuyer: bool)
    ensures OwnMultiSigPubKey(SwapRoles(c), !isMyRoleBuyer) == OwnMultiSigPubKey(c, isMyRoleBuyer)
    ensures SwapRoles(SwapRoles(c)) == c
  {
  }

  /** The payout selection has the same symmetry: the other role on the
      swapped contract selects the same payout address. That the key and the
      payout come from the same party is stated by GetTradeAddresses. */
  lemma SwapRolesPayoutAddressString(c: Contract, isMyRoleBuyer: bool)
    ensures OwnPayoutAddressString(SwapRoles(c), !isMyRoleBuyer) == OwnPayoutAddressString(c, isMyRoleBuyer)
  {
  }

  /** A trade, as far as the lock-time step sees it: the lock time the maker
      assigns to the delayed payout. */
  class Trade {
    var lockTime: int64
    /** Every value ever passed to SetLockTime, in order. */
    ghost var lockTimeWrites: seq<int64>

    constructor ()
      ensures lockTime == 0 && lockTimeWrites == []
    {
      lockTime := 0;
      lockTimeWrites := [];
    }

    method SetLockTime(lockTime: int64)
      modifies this`lockTime, this`lockTimeWrites
      ensures this.lockTime == lockTime
      ensures lockTimeWrites == old(lockTimeWrites) + [lockTime]
    {
      this.lockTime := lockTime;
      lockTimeWrites := lockTimeWrites + [lockTime];
    }
  }
}
