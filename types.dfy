/** Records of the swap ledger: users, swaps, their tags, and the outcome of a call. */
module Types {

  /** 2^256: every U256 quantity of the contract lies below it. */
  const POW256: nat := 0x1_0000_0000_0000_0000_0000_0000_0000_0000_0000_0000_0000_0000_0000_0000_0000_0000

  type U256 = x: nat | x < POW256

  /** FIX_or_FLOAT: the side of a swap, or a user's net position tag. */
  datatype Side = Fix | Float | NoSide

  /** The integer code of a side tag (`as usize`): FIX = 0, FLOAT = 1, None = 2. */
  function SideCode(s: Side): (c: nat)
    ensures c < 3
    ensures s == SideOfCode(c)
  {
    match s
    case Fix => 0
    case Float => 1
    case NoSide => 2
  }

  function SideOfCode(c: nat): Side
  {
    if c == 0 then Fix else if c == 1 then Float else NoSide
  }

  /** The other leg of the swap; a user whose side flips moves to it. */
  function Opposite(s: Side): (o: Side)
    requires s != NoSide
    ensures o != NoSide && o != s
  {
    if s == Fix then Float else Fix
  }

  /** SwapStatus (the unused CONTINUE = 1 is not modelled). */
  datatype Status = Ordering | Complete | Default

  function StatusCode(s: Status): (c: nat)
    ensures c == 0 || c == 2 || c == 3
    ensures s == StatusOfCode(c)
  {
    match s
    case Ordering => 0
    case Complete => 2
    case Default => 3
  }

  function StatusOfCode(c: nat): Status
  {
    if c == 0 then Ordering else if c == 2 then Complete else Default
  }

  /** A user record, stored under the user's address. */
  datatype User = User(
    address: string,
    deposit: U256,
    position: Side,
    exposure: U256,
    swaps: set<U256>)

  /** A swap record, stored under "SWAP_<number>". */
  datatype Swap = Swap(
    id: U256,
    owner: string,
    side: Side,
    amount: U256,
    participants: map<string, U256>,
    opponent: string,
    maturity: U256,
    payRate: U256,
    receiveRate: U256,
    status: Status)

  /** Why a call aborts (each is a `panic!`, `assert!` or `unwrap` of the contract). */
  datatype Error =
    | NoOwnership      // "ownership should already exist"
    | NoSwap           // "swap does not exist"
    | AlreadyStarted   // "already started."
    | AlreadyJoined    // "participant already exists"
    | NotSwapOwner     // "you do't have this swap."
    | NoOpponent       // "oppornent does not exist"
    | NotMatured       // "maturity hasn't come yet"
    | Overflow         // a U256 addition or multiplication that does not fit

  datatype Outcome = Pass | Fail(error: Error)

  datatype Result<T> = Ok(value: T) | Err(error: Error)

  datatype Option<T> = None | Some(value: T)

  /** get_user: the stored record, or a zeroed user with tag None when there is none. */
  function UserOf(users: map<string, User>, address: string): (u: User)
    ensures address in users ==> u == users[address]
    ensures address !in users ==>
      u.address == address && u.deposit == 0 && u.position == NoSide && u.exposure == 0 && u.swaps == {}
  {
    if address in users then users[address] else User(address, 0, NoSide, 0, {})
  }
}
