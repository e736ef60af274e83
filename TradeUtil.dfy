/** Resolution of a trade's MULTI_SIG and TRADE_PAYOUT addresses against a
    snapshot of the wallet's address entries. Both queries are read-only and
    fail closed: every missing piece yields None, never an error. */
module TradeUtil {
  import opened JavaTypes
  import opened Hex
  import opened TradeModel

  /** One wallet address entry: its address string (null when the entry has
      no address) and the hex of its key pair's public key. */
  datatype AddressEntry = AddressEntry(addressString: JString, publicKeyAsHex: string)

  /** What the wallet service shows: all address entries, and the subset
      that is still available (neither reserved nor used). */
  datatype Wallet = Wallet(addressEntries: seq<AddressEntry>, availableAddressEntries: seq<AddressEntry>)

  /** The result tuple: MULTI_SIG address first, TRADE_PAYOUT address second. */
  datatype AddressPair = AddressPair(first: JString, second: JString)

  /** Some entry's public key hex is `hex`. */
  ghost predicate HasPubKeyHex(entries: seq<AddressEntry>, hex: string)
  {
    exists e :: e in entries && e.publicKeyAsHex == hex
  }

  /** Some entry's address string equals `address` (in the sense of
      `Objects.equals`, so a null address matches an entry without one). */
  ghost predicate HasAddress(entries: seq<AddressEntry>, address: JString)
  {
    exists e :: e in entries && e.addressString == address
  }

  /** The search for an entry whose public-key hex equals `hex`: any one
      matching entry, with no promise about which. */
  ghost function FindAnyByPubKeyHex(entries: seq<AddressEntry>, hex: string): (r: Option<AddressEntry>)
    ensures r.None? <==> !HasPubKeyHex(entries, hex)
    ensures r.Some? ==> r.value in entries && r.value.publicKeyAsHex == hex
  {
    if HasPubKeyHex(entries, hex) then
      var e :| e in entries && e.publicKeyAsHex == hex; Some(e)
    else
      None
  }

  /** The search for an entry whose address string equals `address`, null
      matching null: any one matching entry, with no promise about which. */
  ghost function FindAnyByAddress(entries: seq<AddressEntry>, address: JString): (r: Option<AddressEntry>)
    ensures r.None? <==> !HasAddress(entries, address)
    ensures r.Some? ==> r.value in entries && r.value.addressString == address
  {
    if HasAddress(entries, address) then
      var e :| e in entries && e.addressString == address; Some(e)
    else
      None
  }

  /** True when no entry's address string equals `address` (null matching
      null), scanning the entries in order. */
  function NoneMatchAddress(entries: seq<AddressEntry>, address: JString): (r: bool)
    ensures r <==> !HasAddress(entries, address)
  {
    if entries == [] then true
    else
      assert forall e :: e in entries ==> e == entries[0] || e in entries[1..];
      entries[0].addressString != address && NoneMatchAddress(entries[1..], address)
  }

  /** getTradeAddresses: the MULTI_SIG address is that of some wallet entry
      whose public key hex is the hex of the own-role multisig key; the
      TRADE_PAYOUT address is the contract's own-role payout string, which
      must be the address of some wallet entry. */
  ghost function GetTradeAddresses(wallet: Wallet, contract: Option<Contract>, isMyRoleBuyer: bool): (r: Option<AddressPair>)
    ensures contract.None? ==> r.None?
    ensures contract.Some? ==>
      var key := if isMyRoleBuyer then contract.value.buyerMultiSigPubKey else contract.value.sellerMultiSigPubKey;
      var payout := if isMyRoleBuyer then contract.value.buyerPayoutAddressString else contract.value.sellerPayoutAddressString;
      && (r.Some? <==>
            && key.Some?
            && HasPubKeyHex(wallet.addressEntries, BytesAsHexString(key.value))
            && HasAddress(wallet.addressEntries, payout))
      && (r.Some? ==>
            && r.value.second == payout
            && exists e :: e in wallet.addressEntries
                 && e.publicKeyAsHex == BytesAsHexString(key.value)
                 && e.addressString == r.value.first)
  {
    if contract.None? then None
    else
      var c := contract.value;
      var multiSigPubKey := OwnMultiSigPubKey(c, isMyRoleBuyer);
      if multiSigPubKey.None? then None
      else
        var multiSigPubKeyString := BytesAsHexString(multiSigPubKey.value);
        var multiSigAddress := FindAnyByPubKeyHex(wallet.addressEntries, multiSigPubKeyString);
        if multiSigAddress.None? then None
        else
          var payoutAddress := OwnPayoutAddressString(c, isMyRoleBuyer);
          var payoutAddressEntry := FindAnyByAddress(wallet.addressEntries, payoutAddress);
          if payoutAddressEntry.None? then None
          else Some(AddressPair(multiSigAddress.value.addressString, payoutAddress))
  }

  /** getAvailableAddresses: the getTradeAddresses pair, provided both of its
      addresses are also addresses of available entries. */
  ghost function GetAvailableAddresses(wallet: Wallet, contract: Option<Contract>, isMyRoleBuyer: bool): (r: Option<AddressPair>)
    ensures var known := GetTradeAddresses(wallet, contract, isMyRoleBuyer);
      && (r.Some? <==>
            && known.Some?
            && HasAddress(wallet.availableAddressEntries, known.value.first)
            && HasAddress(wallet.availableAddressEntries, known.value.second))
      && (r.Some? ==> r == known)
  {
    var addresses := GetTradeAddresses(wallet, contract, isMyRoleBuyer);
    if addresses.None? then None
    else if NoneMatchAddress(wallet.availableAddressEntries, addresses.value.first) then None
    else if NoneMatchAddress(wallet.availableAddressEntries, addresses.value.second) then None
    else Some(AddressPair(addresses.value.first, addresses.value.second))
  }

  /** Role selection: the result depends on the contract only through the
      own-role multisig key and the own-role payout address, both chosen by
      the same role flag; the counterparty's fields never matter. */
  lemma OnlyOwnRoleFieldsMatter(wallet: Wallet, c1: Contract, c2: Contract, isMyRoleBuyer: bool)
    requires OwnMultiSigPubKey(c1, isMyRoleBuyer) == OwnMultiSigPubKey(c2, isMyRoleBuyer)
    requires OwnPayoutAddressString(c1, isMyRoleBuyer) == OwnPayoutAddressString(c2, isMyRoleBuyer)
    ensures GetTradeAddresses(wallet, Some(c1), isMyRoleBuyer) == GetTradeAddresses(wallet, Some(c2), isMyRoleBuyer)
    ensures GetAvailableAddresses(wallet, Some(c1), isMyRoleBuyer) == GetAvailableAddresses(wallet, Some(c2), isMyRoleBuyer)
  {
  }

  /** Both queries treat the two roles alike: the seller on the swapped
      contract resolves exactly what the buyer resolves on the original, and
      the other way round. */
  lemma SwapRolesResolution(wallet: Wallet, c: Contract, isMyRoleBuyer: bool)
    ensures GetTradeAddresses(wallet, Some(SwapRoles(c)), !isMyRoleBuyer) == GetTradeAddresses(wallet, Some(c), isMyRoleBuyer)
    ensures GetAvailableAddresses(wallet, Some(SwapRoles(c)), !isMyRoleBuyer) == GetAvailableAddresses(wallet, Some(c), isMyRoleBuyer)
  {
    SwapRolesMultiSigPubKey(c, isMyRoleBuyer);
    SwapRolesPayoutAddressString(c, isMyRoleBuyer);
  }

  /** "Available" refines "known": no pair is available that getTradeAddresses
      does not report, and an available pair consists of addresses the
      wallet's full entry list knows. */
  lemma AvailableIsKnown(wallet: Wallet, contract: Option<Contract>, isMyRoleBuyer: bool)
    ensures GetTradeAddresses(wallet, contract, isMyRoleBuyer).None? ==>
              GetAvailableAddresses(wallet, contract, isMyRoleBuyer).None?
    ensures GetAvailableAddresses(wallet, contract, isMyRoleBuyer).Some? ==>
              var p := GetAvailableAddresses(wallet, contract, isMyRoleBuyer).value;
              && GetTradeAddresses(wallet, contract, isMyRoleBuyer) == Some(p)
              && HasAddress(wallet.addressEntries, p.first)
              && HasAddress(wallet.addressEntries, p.second)
  {
  }

  /** Reserving more addresses can only make getAvailableAddresses fail: if
      every available address of `after` is an available address of `before`
      and the full entry lists agree, a pair available after was available
      before, and it is the same pair. */
  lemma AvailableShrinks(before: Wallet, after: Wallet, contract: Option<Contract>, isMyRoleBuyer: bool)
    requires after.addressEntries == before.addressEntries
    requires forall e :: e in after.availableAddressEntries ==> HasAddress(before.availableAddressEntries, e.addressString)
    ensures GetAvailableAddresses(after, contract, isMyRoleBuyer).Some? ==>
              GetAvailableAddresses(before, contract, isMyRoleBuyer) == GetAvailableAddresses(after, contract, isMyRoleBuyer)
  {
  }

  /** When every known entry is also available, the two queries agree. */
  lemma AllAvailableAgree(wallet: Wallet, contract: Option<Contract>, isMyRoleBuyer: bool)
    requires forall e :: e in wallet.addressEntries ==> e in wallet.availableAddressEntries
    ensures GetAvailableAddresses(wallet, contract, isMyRoleBuyer) == GetTradeAddresses(wallet, contract, isMyRoleBuyer)
  {
  }

  /** The buyer whose multisig key encodes as "aa" resolves to the wallet
      entry with that fingerprint and to the contract's payout address; when
      the payout address is known but no longer available, only the second
      query fails. */
  lemma BuyerExample()
    ensures var multiSig := AddressEntry(Some("1Buyer"), "aa");
      var payout := AddressEntry(Some("1PayoutBuyer"), "bb");
      var c := Contract(Some([0xaa]), Some([0xcc]), Some("1PayoutBuyer"), Some("1PayoutSeller"));
      var known := Wallet([multiSig, payout], [multiSig, payout]);
      var reserved := Wallet([multiSig, payout], [multiSig]);
      && GetTradeAddresses(known, Some(c), true) == Some(AddressPair(Some("1Buyer"), Some("1PayoutBuyer")))
      && GetAvailableAddresses(known, Some(c), true) == Some(AddressPair(Some("1Buyer"), Some("1PayoutBuyer")))
      && GetTradeAddresses(reserved, Some(c), true) == Some(AddressPair(Some("1Buyer"), Some("1PayoutBuyer")))
      && GetAvailableAddresses(reserved, Some(c), true).None?
      && GetTradeAddresses(known, Some(c), false).None?
  {
    EncodesSingleByte();
    assert BytesAsHexString([0xcc]) == "cc";
  }
}
