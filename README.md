# Namahage swap ledger, modelled in Dafny

This project models the business layer of the Namahage interest-rate-swap secret contract
(`namahage_swap/secret_contracts/Namahage_swap/src/lib.rs`). The contract keeps a book of users
and swaps in a keyed store:

- Users put up collateral (`deposit`).
- A swap owner offers a fixed-or-floating leg (`create_swap`), bidders join with a rate
  (`join_swap`), and the owner picks one (`swapDecision`). The pick applies the swap's amount
  and side to the owner's position through `changeExposure`.
- At maturity, `complete` applies the amount again through `changeExposureClose`, which
  reverses the signed change that `changeExposure` makes to the user record.
- As the code stands, neither of these moves any user off tag None (see below).
- When the reference price moves, `priceWash` is written to mark every position to market:
  - the paying side is charged exposure × price movement;
  - the receiving side is credited the same amount;
  - a paying user whose deposit does not strictly exceed its charge is defaulted (`default`).
    Its swaps are marked DEFAULT and listed in DEFAULTLIST, and its swaps, exposure and
    deposit are zeroed.

Layout:

- `types.dfy` (module `Types`): the records.
  - `User`, `Swap`, the side tag (FIX = 0, FLOAT = 1, None = 2) and the swap status
    (ORDERING = 0, COMPLETE = 2, DEFAULT = 3).
  - U256 as the naturals below 2^256.
  - `Outcome` / `Result`: a `panic!`, an `assert!` or an overflowing U256 operation becomes
    `Fail(error)`.
- `keys.dfy` (module `Keys`): the swap key "SWAP_<decimal>". Keys of distinct swap numbers
  differ, and none is a reserved record name or an address key. This is why the model keys
  swaps by number.
- `exposure.dfy` (module `Exposure`): the exposure engine as functions.
  - Which branch a call takes (grow, offset, flip, list-only, nothing), the user record it
    writes, and the FIXLIST/FLOATLIST it leaves.
  - Both are checked against a signed reference: the net position `Net` (+exposure for FIX,
    −exposure for FLOAT).
- `wash.dfy` (module `MarkToMarket`): the effect of a whole priceWash as a function of the state
  before it. Each user's update reads only that user's record, so the result does not depend
  on the order in which a set is visited.
  - Collateral totals: with nobody defaulting, payers lose and receivers gain dif × their total
    exposure. With balanced exposure, the two amounts are equal.
- `ledger.dfy` (module `Ledger`): class `Contract`.
  - One field per record kind: `owner`, `users`, `swaps`, `fixlist`, `floatlist`,
    `defaultlist`, `price`, `counter`.
  - The operations are imperative methods that read, change and write back records, as the
    contract does. The loops over FLOATLIST/FIXLIST and over a user's swaps are `while` loops
    over the remaining set.
  - Each method's postcondition ties the new state to the functions above and states exactly
    when it aborts and with which error.
  - Every method keeps the invariant `Valid()`: FIXLIST and FLOATLIST are disjoint, and every
    FLOATLIST address is a stored user with a FIX or FLOAT tag.

The model follows the code where it departs from what the contract's design suggests:

- `priceWash` never writes PRICE.
- `create_swap` never advances the swap counter: it writes SWAPS back unchanged and stores the
  swap under `SWAP_<counter>` with id counter + 1.
- `complete` writes the swap back unchanged. Its status line is a comparison, not an assignment.
- `default` keeps the user's tag and its FIXLIST/FLOATLIST membership.
- No user ever leaves tag None:
  - a missing user reads as tag None;
  - the None branch of `changeExposure` never writes the user record;
  - a tag is only ever written by a flip, and a flip needs a FIX or FLOAT tag already.

  So, from the empty store:
  - `swapDecision` opens no exposure and at most adds the owner to FIXLIST;
  - `complete` grows the owner's exposure instead of closing it;
  - FLOATLIST stays empty, and the offset and flip branches of `changeExposure` never run;
  - PRICE stays 0, so `priceWash` never sees a fall. It charges FIXLIST and credits the empty
    FLOATLIST.

  `Exposure.NoneTagStaysNone`, the `NoTags()` clauses of the `Ledger.Contract` methods and
  `Ledger.Contract.FloatListEmpty` state this. The FIX/FLOAT branches are still modelled and
  proved as the code writes them. `MarkToMarket.WashConservesCollateral` holds in reachable
  states only when all exposure is 0, since FLOATLIST is empty there.
- The code does not keep "tag None exactly when exposure is 0":
  - offsetting exactly the whole exposure leaves the FIX/FLOAT tag with exposure 0
    (`Exposure.ExactOffsetKeepsTag`);
  - a None-tag user opening a FIX position is only added to FIXLIST, and one opening a FLOAT
    position changes nothing.

## Model

| member | source | states |
|---|---|---|
| Types.UserOf | namahage_swap/secret_contracts/Namahage_swap/src/lib.rs:165-178 | get_user: the stored record when there is one, otherwise a record for that address with deposit 0, tag None, exposure 0 and no swaps |
| Types.SideCode | namahage_swap/secret_contracts/Namahage_swap/src/lib.rs:84-88 | the side code is 0, 1 or 2 and decodes back to the same tag |
| Types.StatusCode | namahage_swap/secret_contracts/Namahage_swap/src/lib.rs:76-81 | the status code is 0, 2 or 3 and decodes back to the same status |
| Types.Opposite | namahage_swap/secret_contracts/Namahage_swap/src/lib.rs:269-289 | a flip moves a FIX or FLOAT tag to the other one, never to None |
| Keys.Decimal | namahage_swap/secret_contracts/Namahage_swap/src/lib.rs:144 | `to_string` of a number is a non-empty string of digits with no leading zero unless the number is 0 |
| Keys.ParseDecimalOfDecimal | namahage_swap/secret_contracts/Namahage_swap/src/lib.rs:144 | reading the decimal rendering back gives the number (proved by induction on the number) |
| Keys.SwapKey | namahage_swap/secret_contracts/Namahage_swap/src/lib.rs:142-147 | create_swap_key is "SWAP_" followed by digits only; it is none of the reserved record names and not a "0x" address key |
| Keys.SwapKeyInjective | namahage_swap/secret_contracts/Namahage_swap/src/lib.rs:142-147 | distinct swap numbers give distinct keys, so no two swaps share a record |
| Keys.ReservedKeysAreNotAddresses | namahage_swap/secret_contracts/Namahage_swap/src/lib.rs:30-40 | none of the reserved record names starts with "0x", so no user record shares a key with them |
| Exposure.OpenUser | namahage_swap/secret_contracts/Namahage_swap/src/lib.rs:255-306 | changeExposure's user record: address and deposit kept; the tag changes exactly on a flip; for a FIX/FLOAT user the signed net position moves by exactly +amount (FIX) or −amount (FLOAT); the swap joins `swaps` on the same-side branch and on the FIX-tag branches, never on the FLOAT-tag ones; the None-tag branches write nothing |
| Exposure.OpenLists | namahage_swap/secret_contracts/Namahage_swap/src/lib.rs:267-305 | changeExposure's FIXLIST/FLOATLIST: no address other than the user's moves; grow, offset and FLOAT-from-None leave both lists; FIX-from-None adds to FIXLIST; after a flip the address is in exactly the list of its new tag; disjoint lists stay disjoint |
| Exposure.CloseUser | namahage_swap/secret_contracts/Namahage_swap/src/lib.rs:308-337 | changeExposureClose's user record: address and deposit kept; the tag changes exactly on a flip; a tag other than the side (None included) keeps its tag and its exposure grows by exactly the amount; for a FIX/FLOAT user the net position moves by −amount (FIX) or +amount (FLOAT); every writing branch removes the swap |
| Exposure.NoneTagStaysNone | namahage_swap/secret_contracts/Namahage_swap/src/lib.rs:255-337 | a None-tag user keeps tag None under both changeExposure and changeExposureClose, and changeExposure never puts it in FLOATLIST |
| Exposure.NoneTagOpenThenCloseGrows | namahage_swap/secret_contracts/Namahage_swap/src/lib.rs:299-313 | for a None-tag user, opening writes no record and closing then adds the amount to the exposure with the tag still None, so the two do not cancel |
| Exposure.OpenThenCloseRestoresNet | namahage_swap/secret_contracts/Namahage_swap/src/lib.rs:255-337 | closing a swap after opening it returns a FIX/FLOAT user to the same net position and deposit, and drops the swap |
| Exposure.ExactOffsetKeepsTag | namahage_swap/secret_contracts/Namahage_swap/src/lib.rs:262-287 | an opposite-side amount equal to the exposure leaves exposure 0 with the tag unchanged |
| MarkToMarket.PriceDif | namahage_swap/secret_contracts/Namahage_swap/src/lib.rs:461-462 | the movement is 0 exactly when the prices are equal and is their absolute difference otherwise |
| MarkToMarket.Sides | namahage_swap/secret_contracts/Namahage_swap/src/lib.rs:459-497 | FLOATLIST pays and FIXLIST receives on a fall; FIXLIST pays and FLOATLIST receives on a rise |
| MarkToMarket.Defaulted | namahage_swap/secret_contracts/Namahage_swap/src/lib.rs:249-252 | default leaves the user with no swaps, exposure 0 and deposit 0, and keeps its tag and address |
| MarkToMarket.Pay | namahage_swap/secret_contracts/Namahage_swap/src/lib.rs:465-471 | a paying user whose deposit strictly exceeds the charge keeps a positive deposit, lower by exactly the charge, and nothing else changes; otherwise the user is defaulted |
| MarkToMarket.Receive | namahage_swap/secret_contracts/Namahage_swap/src/lib.rs:474-477 | a receiving user's deposit grows by exactly exposure × movement and nothing else changes |
| MarkToMarket.Defaulters | namahage_swap/secret_contracts/Namahage_swap/src/lib.rs:466-470 | the defaulting payers are exactly those whose deposit does not exceed the charge |
| MarkToMarket.DefaultedSwaps | namahage_swap/secret_contracts/Namahage_swap/src/lib.rs:241-247 | every swap of every defaulting payer is marked |
| MarkToMarket.DefaultedSwapsOnlyDefaulters | namahage_swap/secret_contracts/Namahage_swap/src/lib.rs:241-247 | only swaps of defaulting payers are marked |
| MarkToMarket.DefaultedSwapsAdd | namahage_swap/secret_contracts/Namahage_swap/src/lib.rs:464-472 | charging one more payer adds its swaps to the marked set exactly when it defaults |
| MarkToMarket.DefaultedBy | namahage_swap/secret_contracts/Namahage_swap/src/lib.rs:466-470 | one payer marks nothing when it covers its charge, and all of its swaps otherwise |
| MarkToMarket.MarkDefault | namahage_swap/secret_contracts/Namahage_swap/src/lib.rs:241-247 | the listed swaps get status DEFAULT, every other swap record is unchanged, and no record is added |
| MarkToMarket.MarkDefaultTwice | namahage_swap/secret_contracts/Namahage_swap/src/lib.rs:241-247 | marking two sets one after the other is marking their union |
| MarkToMarket.ChargedUsers | namahage_swap/secret_contracts/Namahage_swap/src/lib.rs:464-472 | after the paying loop, each payer's record is its `Pay` result and every other user is unchanged |
| MarkToMarket.CreditedUsers | namahage_swap/secret_contracts/Namahage_swap/src/lib.rs:473-478 | after the receiving loop, each receiver's record is its `Receive` result and every other user is unchanged |
| MarkToMarket.WashUsers | namahage_swap/secret_contracts/Namahage_swap/src/lib.rs:459-498 | after a priceWash: covering payers keep a positive deposit lower by exactly their charge, the other payers are defaulted, receivers gain exactly their charge, nobody else changes, and no tag changes |
| MarkToMarket.ChargedUsersAdd | namahage_swap/secret_contracts/Namahage_swap/src/lib.rs:464-472 | charging one more payer changes only that payer's record |
| MarkToMarket.CreditedUsersAdd | namahage_swap/secret_contracts/Namahage_swap/src/lib.rs:473-478 | crediting one more receiver changes only that receiver's record, and adding a receiver that does not overflow keeps the loop free of aborts |
| MarkToMarket.DepositShift | namahage_swap/secret_contracts/Namahage_swap/src/lib.rs:464-496 | when each deposit of a set gains (or loses) its charge, the set's total deposit gains (or loses) movement × its total exposure (proved by induction on the set) |
| MarkToMarket.WashMovesCollateral | namahage_swap/secret_contracts/Namahage_swap/src/lib.rs:459-498 | with no default, the paying side's total deposit falls by movement × its total exposure and the receiving side's rises by movement × its total exposure |
| MarkToMarket.WashConservesCollateral | namahage_swap/secret_contracts/Namahage_swap/src/lib.rs:459-498 | with no default and equal total exposure on both sides, what the payers lose is exactly what the receivers gain |
| Ledger.ChargeStep | namahage_swap/secret_contracts/Namahage_swap/src/lib.rs:464-472 | one iteration of the paying loop takes the books of the payers done so far to the books of those payers plus one |
| Ledger.Contract.constructor | namahage_swap/secret_contracts/Namahage_swap/src/lib.rs:194-227 | the empty store: no owner, no users or swaps, the three lists empty, price and swap counter 0 (what get_fixlist, get_floatlist, get_defaultlist, get_swaps and get_price read when nothing is stored); every user (there is none) has tag None |
| Ledger.Contract.FloatListEmpty | namahage_swap/secret_contracts/Namahage_swap/src/lib.rs:267-297 | in a store where every user has tag None, FLOATLIST is empty, because only a flip from FIX lists an address there |
| Ledger.Contract.GetSwap | namahage_swap/secret_contracts/Namahage_swap/src/lib.rs:229-234 | the stored swap, or the "swap does not exist" abort exactly when there is none |
| Ledger.Contract.GetOwnership | namahage_swap/secret_contracts/Namahage_swap/src/lib.rs:158-163 | the owner, or the "ownership should already exist" abort exactly when there is none |
| Ledger.Contract.GetSwapInfo | namahage_swap/secret_contracts/Namahage_swap/src/lib.rs:421-433 | aborts exactly when the swap is missing; otherwise the id, maturity and rates of the record, and exactly the side code (FIX 0, FLOAT 1, None 2) and status code (ORDERING 0, COMPLETE 2, DEFAULT 3) of the record's tags |
| Ledger.Contract.Construct | namahage_swap/secret_contracts/Namahage_swap/src/lib.rs:350-356 | records the owner and sets PRICE to 0 |
| Ledger.Contract.ChangeExposure | namahage_swap/secret_contracts/Namahage_swap/src/lib.rs:255-306 | aborts exactly when the same-side addition overflows, changing nothing; otherwise the user becomes `OpenUser` (when that branch writes) and the lists become `OpenLists`; keeps `Valid`; from an all-None store the store stays all-None and FLOATLIST is unchanged |
| Ledger.Contract.ChangeExposureClose | namahage_swap/secret_contracts/Namahage_swap/src/lib.rs:308-337 | aborts exactly when the growing addition overflows; otherwise the user becomes `CloseUser`; the lists are untouched; from an all-None store the store stays all-None |
| Ledger.Contract.Default | namahage_swap/secret_contracts/Namahage_swap/src/lib.rs:236-253 | aborts exactly when one of the user's swaps has no record; otherwise those swaps are marked DEFAULT, added to DEFAULTLIST, and the user becomes `Defaulted`; from an all-None store the store stays all-None |
| Ledger.Contract.CreateSwap | namahage_swap/secret_contracts/Namahage_swap/src/lib.rs:359-388 | aborts exactly when counter + 1 overflows; otherwise stores an ORDERING swap with id counter + 1, side FIX only for code 0, no bids, opponent = owner, receive rate 0, under the unchanged counter |
| Ledger.Contract.JoinSwap | namahage_swap/secret_contracts/Namahage_swap/src/lib.rs:396-418 | succeeds exactly when the owner record exists, the swap exists, is ORDERING and the address has not bid; the error follows the source's check order; success only adds the bid |
| Ledger.Contract.SwapDecision | namahage_swap/secret_contracts/Namahage_swap/src/lib.rs:436-456 | succeeds exactly when the swap exists, the caller owns it, the opponent has bid and the exposure does not overflow; then the swap gets the opponent, no bids, COMPLETE and the bid rate, and the owner's exposure is opened as by `ChangeExposure`; from an all-None store the store stays all-None and FLOATLIST is unchanged |
| Ledger.DecisionIsFinal | namahage_swap/secret_contracts/Namahage_swap/src/lib.rs:441-454 | after a successful decision, a second decision of the same swap aborts with "oppornent does not exist" |
| Ledger.Contract.PriceWash | namahage_swap/secret_contracts/Namahage_swap/src/lib.rs:459-498 | an unchanged price changes nothing; otherwise aborts exactly when a charge, a default or a credit fails, and on success users become `WashUsers`, the swaps of defaulting payers are marked DEFAULT and listed; PRICE is not written; a successful wash keeps an all-None store all-None; an abort is Overflow, or NoSwap from a payer whose charge fits but whose default meets a missing swap |
| Ledger.Contract.ChargeSide | namahage_swap/secret_contracts/Namahage_swap/src/lib.rs:464-472 | the paying loop: aborts exactly when some payer's charge overflows or its default meets a missing swap; otherwise reaches `ChargedUsers` and the marked swaps; an abort carries the error of some aborting payer: Overflow when its charge overflows, NoSwap otherwise |
| Ledger.Contract.ChargeNext | namahage_swap/secret_contracts/Namahage_swap/src/lib.rs:465-471 | one paying iteration, stated against the books of the payers done so far; an abort is Overflow when the charge overflows and NoSwap otherwise |
| Ledger.Contract.ChargeOne | namahage_swap/secret_contracts/Namahage_swap/src/lib.rs:465-471 | one payer: aborts exactly when `PayAborts`; otherwise its record becomes `Pay` and its swaps are marked when it defaults; an abort is Overflow when the charge overflows and NoSwap (from default) otherwise |
| Ledger.Contract.CreditSide | namahage_swap/secret_contracts/Namahage_swap/src/lib.rs:473-478 | the receiving loop: aborts exactly when some receiver's credit overflows; otherwise reaches `CreditedUsers`; an abort is always Overflow |
| Ledger.Contract.CreditNext | namahage_swap/secret_contracts/Namahage_swap/src/lib.rs:474-477 | one receiving iteration, stated against the receivers done so far; an abort is always Overflow |
| Ledger.Contract.Complete | namahage_swap/secret_contracts/Namahage_swap/src/lib.rs:501-509 | aborts unless the swap exists and its maturity is strictly before `now` (or the close overflows); otherwise the owner becomes `CloseUser`; swap records are not changed; from an all-None store the store stays all-None |
| Ledger.Contract.Deposit | namahage_swap/secret_contracts/Namahage_swap/src/lib.rs:512-519 | aborts exactly when the new deposit overflows; otherwise only the user's deposit grows by the amount; from an all-None store the store stays all-None |

## Left out

- Addresses are strings. `h160_to_string` (hex encoding of an H160) is not part of this model. It is taken to be injective with results starting with "0x", which never clash with swap keys (`Keys.SwapKey`) or reserved names (`Keys.ReservedKeysAreNotAddresses`).
- The store macros `read_state!`/`write_state!` and serde (de)serialisation are replaced by map lookups and field updates, keeping the defaults and aborts of the readers.
- The `eng_wasm` host plumbing (`#[pub_interface]`, `#[no_mangle]`, `EthContract`) and the secret-computation environment are not modelled.
- Unused declarations: `MAX_PARTICIPANTS`, FIXLISTSIZE/FLOATLISTSIZE with their getters, ORDERLIST, status CONTINUE, and the commented-out `is_whitelisted`.
- get_swap_size returns the swap counter, which is the `counter` field itself and has no separate member.
- The list readers get_fixlist, get_floatlist and get_defaultlist, and the scalar readers get_swaps and get_price, are the fields `fixlist`, `floatlist`, `defaultlist`, `counter` and `price`. Their absent-record defaults are those fields' initial values.
- Ledger.Contract.PriceWash: when a charge, default or credit aborts partway through a loop, the model makes no claim about the partly updated state beyond `Valid()`. The host's rollback of an aborted call is not visible in the code.
- Ledger.Contract.Default: on an abort the model leaves every record unchanged, as the host's rollback of an aborted call does. The code itself has already written the swaps it visited before the missing one (lib.rs:243-246).
- Ledger.Contract.ChargeSide: when payers abort in different ways, which error the call reports depends on `HashSet` order. The model states only that it is the error of some aborting payer, and `Ledger.Contract.PriceWash` states only Overflow or NoSwap.
- `HashSet` iteration order is not modelled. Each loop picks any remaining element, and its postcondition is order-independent because each step reads only its own record.
- Ledger.Contract.ChangeExposure and Ledger.Contract.ChangeExposureClose take the side as the `Side` tag rather than as an integer code. Every caller passes a swap's own tag, converted with `as usize`.
- The invariant "tag None exactly when exposure is 0" is not kept by the code, and the model does not claim it.
