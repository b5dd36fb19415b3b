/**
 * The exposure engine: how one change of (amount, side) moves a user's net position, stored as
 * a side tag plus an unsigned exposure.  `changeExposure` opens a position and `changeExposureClose`
 * closes one; both pick one of three branches (same side: add; opposite side with enough
 * exposure: subtract; otherwise: flip to the other side).
 */
module Exposure {
  import opened Types

  /** The signed net position a (tag, exposure) pair encodes: positive is net fixed. */
  function Net(u: User): int
  {
    match u.position
    case Fix => u.exposure as int
    case Float => 0 - u.exposure as int
    case NoSide => 0
  }

  /** The signed value of `amount` on one side of a swap. */
  function Signed(amount: nat, side: Side): int
  {
    match side
    case Fix => amount as int
    case Float => 0 - amount as int
    case NoSide => 0
  }

  /**
   * The branch a call takes: Grow adds to the exposure, Offset subtracts from it, Flip switches
   * the tag, EnterFix only lists a None-tag user in FIXLIST, Skip does nothing.
   */
  datatype Branch = Grow | Offset | Flip | EnterFix | Skip

  /** The branch changeExposure takes for this user. */
  function OpenBranch(u: User, amount: nat, side: Side): Branch
  {
    if u.position == side then Grow
    else if u.position != NoSide then (if u.exposure >= amount then Offset else Flip)
    else if side == Fix then EnterFix
    else Skip
  }

  /** The branches in which changeExposure writes the user record back. */
  predicate Writes(b: Branch)
  {
    b == Grow || b == Offset || b == Flip
  }

  /** changeExposure aborts exactly when the same-side addition leaves U256. */
  predicate OpenOverflows(u: User, amount: nat, side: Side)
  {
    OpenBranch(u, amount, side) == Grow && u.exposure + amount >= POW256
  }

  /** The user record changeExposure writes (or the unchanged record when it writes none). */
  function OpenUser(u: User, amount: U256, side: Side, swapNum: U256): (r: User)
    requires !OpenOverflows(u, amount, side)
    ensures r.address == u.address && r.deposit == u.deposit
    ensures r.position != u.position <==> OpenBranch(u, amount, side) == Flip
    ensures u.position != NoSide && side != NoSide ==> Net(r) == Net(u) + Signed(amount, side)
    ensures r.swaps ==
      if OpenBranch(u, amount, side) == Grow || (Writes(OpenBranch(u, amount, side)) && u.position == Fix)
      then u.swaps + {swapNum} else u.swaps
    ensures !Writes(OpenBranch(u, amount, side)) ==> r == u
  {
    match OpenBranch(u, amount, side)
    case Grow => u.(exposure := u.exposure + amount, swaps := u.swaps + {swapNum})
    case Offset =>
      u.(exposure := u.exposure - amount, swaps := if u.position == Fix then u.swaps + {swapNum} else u.swaps)
    case Flip =>
      u.(position := Opposite(u.position), exposure := amount - u.exposure,
         swaps := if u.position == Fix then u.swaps + {swapNum} else u.swaps)
    case EnterFix => u
    case Skip => u
  }

  /**
   * FIXLIST and FLOATLIST after changeExposure for the user at `address`: a flip moves the
   * address from the list of its old tag to the list of its new one, a None-tag user opening
   * a FIX position is added to FIXLIST, and every other branch leaves both lists alone.
   */
  function OpenLists(u: User, amount: U256, side: Side, address: string, fix: set<string>, float: set<string>)
    : (r: (set<string>, set<string>))
    requires !OpenOverflows(u, amount, side)
    ensures r.0 - {address} == fix - {address} && r.1 - {address} == float - {address}
    ensures OpenBranch(u, amount, side) in {Grow, Offset, Skip} ==> r == (fix, float)
    ensures OpenBranch(u, amount, side) == EnterFix ==> r == (fix + {address}, float)
    ensures OpenBranch(u, amount, side) == Flip ==>
      (address in r.0 <==> OpenUser(u, amount, side, 0).position == Fix) &&
      (address in r.1 <==> OpenUser(u, amount, side, 0).position == Float)
    ensures fix !! float && (u.position == NoSide ==> address !in float) ==> r.0 !! r.1
  {
    match OpenBranch(u, amount, side)
    case Flip =>
      if u.position == Fix then (fix - {address}, float + {address})
      else (fix + {address}, float - {address})
    case EnterFix => (fix + {address}, float)
    case _ => (fix, float)
  }

  /** The branch changeExposureClose takes: any tag other than `side` (None included) grows. */
  function CloseBranch(u: User, amount: nat, side: Side): Branch
  {
    if u.position != side then Grow
    else if u.position != NoSide then (if u.exposure >= amount then Offset else Flip)
    else Skip
  }

  predicate CloseOverflows(u: User, amount: nat, side: Side)
  {
    CloseBranch(u, amount, side) == Grow && u.exposure + amount >= POW256
  }

  /** The user record changeExposureClose writes (or the unchanged record when it writes none). */
  function CloseUser(u: User, amount: U256, side: Side, swapNum: U256): (r: User)
    requires !CloseOverflows(u, amount, side)
    ensures r.address == u.address && r.deposit == u.deposit
    ensures r.position != u.position <==> CloseBranch(u, amount, side) == Flip
    ensures u.position != NoSide && side != NoSide ==> Net(r) == Net(u) - Signed(amount, side)
    ensures CloseBranch(u, amount, side) == Grow ==> r.exposure == u.exposure + amount && r.position == u.position
    ensures r.swaps == if CloseBranch(u, amount, side) == Skip then u.swaps else u.swaps - {swapNum}
    ensures CloseBranch(u, amount, side) == Skip ==> r == u
  {
    match CloseBranch(u, amount, side)
    case Grow => u.(exposure := u.exposure + amount, swaps := u.swaps - {swapNum})
    case Offset => u.(exposure := u.exposure - amount, swaps := u.swaps - {swapNum})
    case Flip => u.(position := Opposite(u.position), exposure := amount - u.exposure, swaps := u.swaps - {swapNum})
    case EnterFix => u
    case Skip => u
  }

  /**
   * Closing a swap undoes opening it: for a user that already holds a FIX or FLOAT tag, the
   * net position comes back to where it was and the swap is no longer recorded.
   */
  lemma OpenThenCloseRestoresNet(u: User, amount: U256, side: Side, swapNum: U256)
    requires u.position != NoSide && side != NoSide
    requires !OpenOverflows(u, amount, side)
    requires !CloseOverflows(OpenUser(u, amount, side, swapNum), amount, side)
    ensures var r := CloseUser(OpenUser(u, amount, side, swapNum), amount, side, swapNum);
      Net(r) == Net(u) && r.swaps == u.swaps - {swapNum} && r.deposit == u.deposit
  {
  }

  /**
   * A None-tag user stays None: neither changeExposure nor changeExposureClose gives it a
   * FIX or FLOAT tag, and changeExposure never puts it in FLOATLIST.
   */
  lemma NoneTagStaysNone(u: User, amount: U256, side: Side, swapNum: U256, address: string,
                         fix: set<string>, float: set<string>)
    requires u.position == NoSide
    ensures !OpenOverflows(u, amount, side) ==>
      OpenUser(u, amount, side, swapNum).position == NoSide && OpenLists(u, amount, side, address, fix, float).1 == float
    ensures !CloseOverflows(u, amount, side) ==> CloseUser(u, amount, side, swapNum).position == NoSide
  {
  }

  /**
   * For a None-tag user opening and closing do not cancel: opening writes no record, and
   * closing then adds the amount to the exposure while the tag stays None.
   */
  lemma NoneTagOpenThenCloseGrows(u: User, amount: U256, side: Side, swapNum: U256)
    requires u.position == NoSide && side != NoSide
    requires u.exposure + amount < POW256
    ensures OpenUser(u, amount, side, swapNum) == u
    ensures var r := CloseUser(OpenUser(u, amount, side, swapNum), amount, side, swapNum);
      r.position == NoSide && r.exposure == u.exposure + amount && r.swaps == u.swaps - {swapNum}
  {
  }

  /**
   * The tag and the exposure do not stay in step: offsetting exactly the whole exposure leaves
   * the FIX or FLOAT tag in place with exposure 0.
   */
  lemma ExactOffsetKeepsTag(u: User, side: Side, swapNum: U256)
    requires u.position != NoSide && side != NoSide && side != u.position
    ensures OpenUser(u, u.exposure, side, swapNum).exposure == 0
    ensures OpenUser(u, u.exposure, side, swapNum).position == u.position
  {
  }
}
