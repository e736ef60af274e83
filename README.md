# Bisq trade addresses and the maker's lock-time task, in Dafny

This project models two small sequential pieces of the Bisq trade protocol and proves properties about them.

- **`TradeUtil`** (module `TradeUtil`). It resolves a trade's MULTI_SIG escrow address and its TRADE_PAYOUT address against a snapshot of the wallet's address entries.
  - `getTradeAddresses` picks the multisig key and the payout address of the local role from the contract. It finds some wallet entry whose public-key hex equals the hex of that key. It then checks that some wallet entry has exactly the contract's payout address.
  - `getAvailableAddresses` also requires both addresses to appear among the wallet's available entries.
  - Every missing piece gives `None`, which stands for Java's `null`.
  - Both are ghost functions over sequences. The `findAny` searches are a let-such-that choice, so the model promises only "some matching entry", never the first or the last one.
- **`MakerSetsLockTime.run()`** (module `MakerTasks`). It runs the intercept hook and draws a delay of 20 to 30 days in blocks. It writes `bestChainHeight + delay` to the trade, then overwrites that with `bestChainHeight + 5` (the source marks this line `todo for dev testing`). It finally signals `complete()`, or `failed(t)` on any throwable.
  - The pure function `RunEffect` gives the writes and the outcome.
  - The method `MakerSetsLockTime.Run` on a `Trade` object is proved to do exactly what `RunEffect` says. It may change only the trade's `lockTime` field and its ghost write log.

Supporting modules:
- `JavaTypes`: nullable references, Java `int` with 32-bit wrap-around, and `long`, throwables, and calls that return or throw.
- `Hex`: a lowercase hex encoder that stands in for `Utilities.bytesAsHexString`. It is proved injective.
- `TradeModel`: the contract, the own-role selectors and the `Trade` class.

Inputs that replace code outside the model:
- The wallet is a value `Wallet(addressEntries, availableAddressEntries)`.
- The local role is a boolean `isMyRoleBuyer`. `Contract.isMyRoleBuyer` and the key ring are not part of this model.
- The intercept hook and each `getBestChainHeight()` read are `Call` values: each either returns or throws.
- The random draw `new Random().nextInt(1440)` is the input `r`, with `0 <= r < 1440`.

Points about the code that the model keeps as written:
- The randomized lock time is overwritten with `height + 5` on the line marked `todo for dev testing`. The model keeps the overwrite and flags it in a comment as suspicious.
- The step writes the lock time twice, so it is not atomic. If the second height read throws, the randomized value stays on the trade (`SecondReadFaultKeepsFirstWrite`).
- `findAny` promises only some matching entry, so the model promises only "some match".
- The model's choice of entry is fixed for the same entries and the same search value. Java's `findAny` may pick a different match on each call. So every member that equates the results of two separate queries assumes that repeated searches of the same entries pick the same entry. These are the equality in `GetAvailableAddresses`, `AvailableIsKnown`, `AvailableShrinks`, `AllAvailableAgree`, `OnlyOwnRoleFieldsMatter` and `SwapRolesResolution`. This makes no difference when all entries with the same public-key hex have the same address string. Only the multisig search's choice reaches a result; the payout search is only checked for a match, and the returned payout is the contract's own string.

## Model

| member | source | states |
|---|---|---|
| `JavaTypes.AddInt32` | core/src/main/java/bisq/core/trade/protocol/tasks/maker/MakerSetsLockTime.java:43 | Java `int + int`: the result agrees with the exact sum modulo 2^32, and equals it when the sum fits in an int |
| `Hex.BytesAsHexString` | core/src/main/java/bisq/core/trade/TradeUtil.java:90 | the key's encoding has two characters per byte, all lowercase hex digits |
| `Hex.HexInjective` | core/src/main/java/bisq/core/trade/TradeUtil.java:90-92 | the stand-in encoder is injective: equal hex strings come only from equal byte strings |
| `TradeModel.Trade.SetLockTime` | core/src/main/java/bisq/core/trade/protocol/tasks/maker/MakerSetsLockTime.java:45-47 | `setLockTime` stores the value, records it in the write log, and changes no other field |
| `TradeModel.SwapRolesMultiSigPubKey` | core/src/main/java/bisq/core/trade/TradeUtil.java:84-86 | the multisig-key selection treats both roles alike: the other role on the contract with buyer and seller exchanged selects the same key; exchanging twice changes nothing |
| `TradeModel.SwapRolesPayoutAddressString` | core/src/main/java/bisq/core/trade/TradeUtil.java:99-101 | the payout selection has the same swap symmetry: the other role on the role-swapped contract selects the same payout address. That the key and the payout come from the same party is stated by `TradeUtil.GetTradeAddresses` |
| `TradeUtil.FindAnyByPubKeyHex` | core/src/main/java/bisq/core/trade/TradeUtil.java:91-94 | finds nothing exactly when no entry has that public-key hex; otherwise finds some wallet entry with that hex |
| `TradeUtil.FindAnyByAddress` | core/src/main/java/bisq/core/trade/TradeUtil.java:102-105 | finds nothing exactly when no entry's address `Objects.equals` the payout address; otherwise finds such an entry |
| `TradeUtil.NoneMatchAddress` | core/src/main/java/bisq/core/trade/TradeUtil.java:60-61 | the scan in order is true exactly when no entry has the given address |
| `TradeUtil.GetTradeAddresses` | core/src/main/java/bisq/core/trade/TradeUtil.java:77-110 | `None` without a contract. With one, a pair is returned iff the own-role key is set, some entry has its hex, and some entry has the own-role payout address. The pair's first address is that of an entry with the key's hex; its second is the contract's payout string itself |
| `TradeUtil.GetAvailableAddresses` | core/src/main/java/bisq/core/trade/TradeUtil.java:55-69 | returns a pair iff getTradeAddresses does and both of its addresses are among the available entries' addresses; that pair is the getTradeAddresses pair |
| `TradeUtil.OnlyOwnRoleFieldsMatter` | core/src/main/java/bisq/core/trade/TradeUtil.java:83-101 | contracts that agree on the own-role key and payout give the same results for both queries; the counterparty's fields never matter |
| `TradeUtil.SwapRolesResolution` | core/src/main/java/bisq/core/trade/TradeUtil.java:83-109 | both queries give the other role on the role-swapped contract exactly the result of this role on the original |
| `TradeUtil.AvailableIsKnown` | core/src/main/java/bisq/core/trade/TradeUtil.java:55-58 | a null from getTradeAddresses gives a null from getAvailableAddresses; an available pair is the known pair, and both of its addresses are in the full entry list |
| `TradeUtil.AvailableShrinks` | core/src/main/java/bisq/core/trade/TradeUtil.java:55-68 | reserving addresses can only turn a pair into null: a pair available after is available, and the same, before |
| `TradeUtil.AllAvailableAgree` | core/src/main/java/bisq/core/trade/TradeUtil.java:55-68 | when every known entry is available, the two queries give the same result |
| `TradeUtil.BuyerExample` | core/src/main/java/bisq/core/trade/TradeUtil.java:77-110 | buyer key 0xaa, entry ("1Buyer", "aa") and payout "1PayoutBuyer" in the wallet give ("1Buyer", "1PayoutBuyer"); with the payout reserved, only getAvailableAddresses gives null; the seller role, whose key matches no entry, gives null |
| `MakerTasks.Delay` | core/src/main/java/bisq/core/trade/protocol/tasks/maker/MakerSetsLockTime.java:42 | for every draw in [0, 1440) the delay is 20 to 30 days of 144 blocks: in [2880, 4319] |
| `MakerTasks.RunEffect` | core/src/main/java/bisq/core/trade/protocol/tasks/maker/MakerSetsLockTime.java:37-53 | the run makes at most two writes, and it signals complete exactly when it made both |
| `MakerTasks.RandomizedLockTime` | core/src/main/java/bisq/core/trade/protocol/tasks/maker/MakerSetsLockTime.java:43 | the first lock time is the int sum of height and delay: equal to the exact sum modulo 2^32, and 2880 to 4319 blocks above the height when it cannot overflow |
| `MakerTasks.DevLockTime` | core/src/main/java/bisq/core/trade/protocol/tasks/maker/MakerSetsLockTime.java:47 | the overwriting lock time is the int sum `height + 5`: equal to the exact sum modulo 2^32, and exactly five blocks above the height when it cannot overflow |
| `MakerTasks.LockTimeAfterConcat` | core/src/main/java/bisq/core/trade/protocol/tasks/maker/MakerSetsLockTime.java:45-47 | successive setLockTime calls compose: one batch of writes then another gives the same lock time as all of them in order |
| `MakerTasks.HookFirst` | core/src/main/java/bisq/core/trade/protocol/tasks/maker/MakerSetsLockTime.java:38-51 | if the intercept hook throws, nothing is written, the lock time is unchanged, and the task fails with the hook's cause, whatever the height reads would give |
| `MakerTasks.FirstWrite` | core/src/main/java/bisq/core/trade/protocol/tasks/maker/MakerSetsLockTime.java:42-45 | the first write is the first height read plus the delay; when no int overflow is possible it lies 2880 to 4319 blocks above that height |
| `MakerTasks.RandomizedValueOverwritten` | core/src/main/java/bisq/core/trade/protocol/tasks/maker/MakerSetsLockTime.java:45-47 | on success there are two writes, randomized then `h2 + 5`; the final lock time is `h2 + 5` and does not depend on the random draw |
| `MakerTasks.SecondReadFaultKeepsFirstWrite` | core/src/main/java/bisq/core/trade/protocol/tasks/maker/MakerSetsLockTime.java:45-51 | a throw from the second height read leaves the randomized lock time on the trade and signals failed with that cause: the step is not atomic |
| `MakerTasks.OutcomeIsFirstFault` | core/src/main/java/bisq/core/trade/protocol/tasks/maker/MakerSetsLockTime.java:38-51 | complete is signalled exactly when the hook and both reads return; otherwise failed carries the cause of the first call that threw |
| `MakerTasks.MakerSetsLockTime.constructor` | core/src/main/java/bisq/core/trade/protocol/tasks/maker/MakerSetsLockTime.java:32-34 | the task is bound to its trade |
| `MakerTasks.MakerSetsLockTime.Run` | core/src/main/java/bisq/core/trade/protocol/tasks/maker/MakerSetsLockTime.java:37-53 | `run()` returns the outcome RunEffect gives, appends exactly its writes to the trade's write log, and leaves the last written value (or the old one) as the lock time; only the lock time changes |

## Left out

- `BtcWalletService`, `KeyRing` and `Contract.isMyRoleBuyer` are not part of this model. They become the `Wallet` value and the `isMyRoleBuyer` flag. Wallet staleness and concurrent reservation of addresses are outside a sequential model.
- `AddressEntry.getKeyPair()` is assumed to return a key pair for every entry. Its null check is not part of this model.
- `Utilities.bytesAsHexString` is not part of this model. A lowercase hex encoder stands in for it, and only equality of encodings (injectivity) is relied on.
- `java.util.Random`: only its range `[0, 1440)` is modelled, through the input `r`. Its distribution is not modelled.
- `runInterceptHook`, `complete()`, `failed(t)` and the `TaskRunner`/`TradeTask` framework are not part of this model. The hook is an input that returns or throws. The outcome is the returned `TaskOutcome`. A multi-step runner that stops at the first failure is not modelled, because its source is not among the modelled files.
- `getBestChainHeight()` is taken to be a Java `int`, as in the wallet service, which is not part of this model.
- `complete()` is taken never to throw. It sits inside the `try`, so a throw from it would also reach `failed(t)`. The model's single outcome value, never both signals, relies on this.
- `Trade.setLockTime` is taken never to throw.
- The `Trade` class holds only the lock time. The queries take the trade's contract (`trade.getContract()`) as their own argument, an `Option<Contract>`. Any persistence it triggers is not modelled.
- Logging (`log.info`), `@Inject`/`@Singleton` wiring, and `Tuple2` beyond a plain pair are not modelled.
