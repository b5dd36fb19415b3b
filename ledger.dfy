/**
 * The contract's state and its operations.  Each record kind of the keyed store is a field:
 * user records by address, swap records by swap number (the key "SWAP_<number>" is injective,
 * see Keys.SwapKeyInjective), the three lists as sets, and the scalars.  An absent list reads as
 * the empty set and an absent counter or price as 0, which are the fields' initial values; an
 * absent user reads as a zeroed user (UserOf).  Each operation reads records, changes them in
 * memory and writes them back, and reports an abort as Fail.
 */
module Ledger {
  import opened Types
  import opened Exposure
  import opened MarkToMarket

  /** get_swap_info: (id, side code, status code, maturity, pay rate, receive rate). */
  type SwapInfo = (U256, nat, nat, U256, U256, U256)

  /** The records a price movement touches: user records, swap records and DEFAULTLIST. */
  type Books = (map<string, User>, map<U256, Swap>, set<U256>)

  /** The books after the paying users in `done` have each been charged, or defaulted. */
  predicate Charged(users0: map<string, User>, swaps0: map<U256, Swap>, list0: set<U256>, done: set<string>, dif: nat,
                    books: Books)
  {
    && books.0 == ChargedUsers(users0, done, dif)
    && books.1 == MarkDefault(swaps0, DefaultedSwaps(users0, done, dif))
    && books.2 == list0 + DefaultedSwaps(users0, done, dif)
  }

  /** Before a payer is charged, the loop sees its original record and the original swap ids. */
  lemma ChargeView(users0: map<string, User>, swaps0: map<U256, Swap>, list0: set<U256>,
                   done: set<string>, a: string, dif: nat, before: Books)
    requires a !in done
    requires Charged(users0, swaps0, list0, done, dif, before)
    ensures UserOf(before.0, a) == UserOf(users0, a)
    ensures before.1.Keys == swaps0.Keys
  {
  }

  /**
   * One step of the paying loop: charging `a` in the books of `done` gives the books of
   * `done + {a}`.
   */
  lemma ChargeStep(users0: map<string, User>, swaps0: map<U256, Swap>, list0: set<U256>,
                   done: set<string>, a: string, dif: nat, before: Books, after: Books)
    requires a !in done
    requires Charged(users0, swaps0, list0, done, dif, before)
    requires after.0 == before.0[a := Pay(UserOf(before.0, a), dif)]
    requires after.1 == MarkDefault(before.1, DefaultedBy(UserOf(before.0, a), dif))
    requires after.2 == before.2 + DefaultedBy(UserOf(before.0, a), dif)
    ensures Charged(users0, swaps0, list0, done + {a}, dif, after)
  {
    var user := UserOf(users0, a);
    assert UserOf(before.0, a) == user;
    ChargedUsersAdd(users0, done, a, dif);
    DefaultedSwapsAdd(users0, done, a, dif);
    MarkDefaultTwice(swaps0, DefaultedSwaps(users0, done, dif), DefaultedBy(user, dif));
  }

  /** Rewriting a user's deposit keeps every FLOATLIST address a stored user with a FIX or FLOAT tag. */
  lemma DepositWriteKeepsListed(users: map<string, User>, floatlist: set<string>, address: string, u: User)
    requires forall a :: a in floatlist ==> a in users && users[a].position != NoSide
    requires u.position == UserOf(users, address).position
    ensures forall a :: a in floatlist ==> a in users[address := u] && users[address := u][a].position != NoSide
  {
  }

  class Contract {
    var owner: Option<string>
    var users: map<string, User>
    var swaps: map<U256, Swap>
    var fixlist: set<string>
    var floatlist: set<string>
    var defaultlist: set<U256>
    var price: U256
    var counter: U256

    /**
     * The book's invariant: no address is in both FIXLIST and FLOATLIST, and every FLOATLIST
     * address has a stored record with a FIX or FLOAT tag (only a flip from FIX lists an
     * address there, and no operation resets a tag to None).
     */
    ghost predicate Valid()
      reads this
    {
      && fixlist !! floatlist
      && forall a :: a in floatlist ==> a in users && users[a].position != NoSide
    }

    /**
     * Every stored user has tag None.  The empty store has this property and no operation
     * breaks it: a tag is only ever written by a flip, and a flip needs a FIX or FLOAT tag.
     */
    ghost predicate NoTags()
      reads this
    {
      forall a :: a in users ==> users[a].position == NoSide
    }

    /** In a store where every user has tag None, FLOATLIST is empty. */
    lemma FloatListEmpty()
      requires Valid() && NoTags()
      ensures floatlist == {}
    {
      forall a | a in floatlist
        ensures false
      {
        assert users[a].position != NoSide;
      }
    }

    /** The empty store, before `construct` has run. */
    constructor ()
      ensures Valid()
      ensures owner == None && users == map[] && swaps == map[]
      ensures fixlist == {} && floatlist == {} && defaultlist == {}
      ensures price == 0 && counter == 0
      ensures NoTags()
    {
      owner := None;
      users := map[];
      swaps := map[];
      fixlist, floatlist, defaultlist := {}, {}, {};
      price, counter := 0, 0;
    }

    /** get_swap: a missing swap is fatal. */
    function GetSwap(swapNum: U256): (r: Result<Swap>)
      reads this
      ensures r.Ok? <==> swapNum in swaps
      ensures r.Ok? ==> r.value == swaps[swapNum]
      ensures r.Err? ==> r.error == NoSwap
    {
      if swapNum in swaps then Ok(swaps[swapNum]) else Err(NoSwap)
    }

    /** get_ownership: a missing owner record is fatal. */
    function GetOwnership(): (r: Result<string>)
      reads this
      ensures r.Ok? <==> owner.Some?
      ensures r.Ok? ==> r.value == owner.value
      ensures r.Err? ==> r.error == NoOwnership
    {
      if owner.Some? then Ok(owner.value) else Err(NoOwnership)
    }

    /** get_swap_info: the swap's summary, with the integer codes of its side and status. */
    function GetSwapInfo(swapNum: U256): (r: Result<SwapInfo>)
      reads this
      ensures r.Err? <==> swapNum !in swaps
      ensures r.Err? ==> r.error == NoSwap
      ensures r.Ok? ==>
        var s := swaps[swapNum];
        && r.value.0 == s.id && r.value.1 == SideCode(s.side) && r.value.2 == StatusCode(s.status)
        && r.value.3 == s.maturity && r.value.4 == s.payRate && r.value.5 == s.receiveRate
    {
      match GetSwap(swapNum)
      case Err(e) => Err(e)
      case Ok(s) => Ok((s.id, SideCode(s.side), StatusCode(s.status), s.maturity, s.payRate, s.receiveRate))
    }

    /** construct: records the owner and writes PRICE = 0. */
    method Construct(ownerAddr: string)
      requires Valid()
      modifies this`owner, this`price
      ensures Valid()
      ensures owner == Some(ownerAddr) && price == 0
    {
      owner := Some(ownerAddr);
      price := 0;
    }

    /** changeExposure: opens `amount` on `side` for the user at `address`. */
    method ChangeExposure(address: string, amount: U256, side: Side, swapNum: U256) returns (r: Outcome)
      requires Valid()
      modifies this`users, this`fixlist, this`floatlist
      ensures Valid()
      ensures r.Fail? <==> OpenOverflows(UserOf(old(users), address), amount, side)
      ensures r.Fail? ==>
        r.error == Overflow && users == old(users) && fixlist == old(fixlist) && floatlist == old(floatlist)
      ensures r.Pass? ==>
        users == if Writes(OpenBranch(UserOf(old(users), address), amount, side))
          then old(users)[address := OpenUser(UserOf(old(users), address), amount, side, swapNum)]
          else old(users)
      ensures r.Pass? ==>
        (fixlist, floatlist) == OpenLists(UserOf(old(users), address), amount, side, address, old(fixlist), old(floatlist))
      ensures old(NoTags()) ==> NoTags() && floatlist == old(floatlist)
    {
      var user := UserOf(users, address);
      if user.position == side {
        if user.exposure + amount >= POW256 {
          return Fail(Overflow);
        }
        user := user.(exposure := user.exposure + amount, swaps := user.swaps + {swapNum});
        users := users[address := user];
      } else if user.position == Fix {
        if user.exposure >= amount {
          user := user.(exposure := user.exposure - amount, swaps := user.swaps + {swapNum});
          users := users[address := user];
        } else {
          user := user.(position := Float, exposure := amount - user.exposure, swaps := user.swaps + {swapNum});
          floatlist := floatlist + {address};
          fixlist := fixlist - {address};
          users := users[address := user];
        }
      } else if user.position == Float {
        if user.exposure >= amount {
          user := user.(exposure := user.exposure - amount);
          users := users[address := user];
        } else {
          user := user.(position := Fix, exposure := amount - user.exposure);
          fixlist := fixlist + {address};
          floatlist := floatlist - {address};
          users := users[address := user];
        }
      } else if side == Fix {
        fixlist := fixlist + {address};
      }
      r := Pass;
    }

    /** changeExposureClose: closes `amount` on `side` for the user at `address`; the lists are not touched. */
    method ChangeExposureClose(address: string, amount: U256, side: Side, swapNum: U256) returns (r: Outcome)
      requires Valid()
      modifies this`users
      ensures Valid()
      ensures r.Fail? <==> CloseOverflows(UserOf(old(users), address), amount, side)
      ensures r.Fail? ==> r.error == Overflow && users == old(users)
      ensures r.Pass? ==>
        users == if CloseBranch(UserOf(old(users), address), amount, side) == Skip then old(users)
          else old(users)[address := CloseUser(UserOf(old(users), address), amount, side, swapNum)]
      ensures old(NoTags()) ==> NoTags()
    {
      var user := UserOf(users, address);
      if user.position != side {
        if user.exposure + amount >= POW256 {
          return Fail(Overflow);
        }
        user := user.(exposure := user.exposure + amount, swaps := user.swaps - {swapNum});
        users := users[address := user];
      } else if user.position == Fix {
        if user.exposure >= amount {
          user := user.(exposure := user.exposure - amount, swaps := user.swaps - {swapNum});
        } else {
          user := user.(position := Float, exposure := amount - user.exposure, swaps := user.swaps - {swapNum});
        }
        users := users[address := user];
      } else if user.position == Float {
        if user.exposure >= amount {
          user := user.(exposure := user.exposure - amount, swaps := user.swaps - {swapNum});
        } else {
          user := user.(position := Fix, exposure := amount - user.exposure, swaps := user.swaps - {swapNum});
        }
        users := users[address := user];
      }
      r := Pass;
    }

    /**
     * default: marks every swap of the user DEFAULT and lists it in DEFAULTLIST, then zeroes the
     * user's swaps, exposure and deposit.  A swap id without a record aborts.
     */
    method Default(address: string) returns (r: Outcome)
      requires Valid()
      modifies this`users, this`swaps, this`defaultlist
      ensures Valid()
      ensures r.Fail? <==> !(UserOf(old(users), address).swaps <= old(swaps).Keys)
      ensures r.Fail? ==> r.error == NoSwap && users == old(users) && swaps == old(swaps) && defaultlist == old(defaultlist)
      ensures r.Pass? ==> users == old(users)[address := Defaulted(UserOf(old(users), address))]
      ensures r.Pass? ==> swaps == MarkDefault(old(swaps), UserOf(old(users), address).swaps)
      ensures r.Pass? ==> defaultlist == old(defaultlist) + UserOf(old(users), address).swaps
      ensures old(NoTags()) ==> NoTags()
    {
      var user := UserOf(users, address);
      var todo := user.swaps;
      var marked := swaps;
      var list := defaultlist;
      while todo != {}
        invariant todo <= user.swaps
        invariant user.swaps - todo <= swaps.Keys
        invariant marked == MarkDefault(swaps, user.swaps - todo)
        invariant list == defaultlist + (user.swaps - todo)
        decreases todo
      {
        var swapNum :| swapNum in todo;
        if swapNum !in marked {
          return Fail(NoSwap);
        }
        marked := marked[swapNum := marked[swapNum].(status := Status.Default)];
        list := list + {swapNum};
        todo := todo - {swapNum};
      }
      swaps := marked;
      defaultlist := list;
      users := users[address := Defaulted(user)];
      r := Pass;
    }

    /** create_swap: stores a new ORDERING swap under the current counter; the counter is not advanced. */
    method CreateSwap(sideCode: U256, amount: U256, maturity: U256, rate: U256, ownerAddr: string) returns (r: Outcome)
      requires Valid()
      modifies this`swaps, this`counter
      ensures Valid()
      ensures counter == old(counter)
      ensures r.Fail? <==> counter + 1 >= POW256
      ensures r.Fail? ==> r.error == Overflow && swaps == old(swaps)
      ensures r.Pass? ==> counter + 1 < POW256 && swaps == old(swaps)[counter := Swap(
        counter + 1, ownerAddr, if sideCode == 0 then Fix else Float, amount, map[], ownerAddr,
        maturity, rate, 0, Ordering)]
    {
      var num := counter;
      var side := Float;
      if sideCode == SideCode(Fix) {
        side := Fix;
      }
      if num + 1 >= POW256 {
        return Fail(Overflow);
      }
      var swap := Swap(num + 1, ownerAddr, side, amount, map[], ownerAddr, maturity, rate, 0, Ordering);
      counter := num;
      swaps := swaps[num := swap];
      r := Pass;
    }

    /** join_swap: records the bid (address, rate) on a swap that is still ORDERING. */
    method JoinSwap(swapNum: U256, address: string, rate: U256) returns (r: Outcome)
      requires Valid()
      modifies this`swaps
      ensures Valid()
      ensures r.Pass? <==>
        old(owner).Some? && swapNum in old(swaps)
        && old(swaps)[swapNum].status == Ordering && address !in old(swaps)[swapNum].participants
      ensures r.Fail? ==> swaps == old(swaps)
      ensures r.Fail? ==>
        r.error == if old(owner).None? then NoOwnership
          else if swapNum !in old(swaps) then NoSwap
          else if old(swaps)[swapNum].status != Ordering then AlreadyStarted
          else AlreadyJoined
      ensures r.Pass? ==> swaps == old(swaps)[swapNum := old(swaps)[swapNum].(
        participants := old(swaps)[swapNum].participants[address := rate])]
    {
      var ownership := GetOwnership();
      if ownership.Err? {
        return Fail(ownership.error);
      }
      var found := GetSwap(swapNum);
      if found.Err? {
        return Fail(found.error);
      }
      var swap := found.value;
      if swap.status != Ordering {
        return Fail(AlreadyStarted);
      }
      if address in swap.participants {
        return Fail(AlreadyJoined);
      }
      swap := swap.(participants := swap.participants[address := rate]);
      swaps := swaps[swapNum := swap];
      r := Pass;
    }

    /**
     * swapDecision: the swap's owner picks a bidder; the bids are cleared, the swap becomes
     * COMPLETE with the bidder's rate as receive rate, and the owner's exposure is opened.
     */
    method SwapDecision(swapNum: U256, opponent: string, swapOwner: string) returns (r: Outcome)
      requires Valid()
      modifies this`swaps, this`users, this`fixlist, this`floatlist
      ensures Valid()
      ensures r.Pass? <==>
        swapNum in old(swaps) && old(swaps)[swapNum].owner == swapOwner
        && opponent in old(swaps)[swapNum].participants
        && !OpenOverflows(UserOf(old(users), swapOwner), old(swaps)[swapNum].amount, old(swaps)[swapNum].side)
      ensures r.Fail? ==>
        swaps == old(swaps) && users == old(users) && fixlist == old(fixlist) && floatlist == old(floatlist)
      ensures r.Fail? ==>
        r.error == if swapNum !in old(swaps) then NoSwap
          else if old(swaps)[swapNum].owner != swapOwner then NotSwapOwner
          else if opponent !in old(swaps)[swapNum].participants then NoOpponent
          else Overflow
      ensures r.Pass? ==>
        var s := old(swaps)[swapNum];
        && swaps == old(swaps)[swapNum := s.(opponent := opponent, participants := map[],
             status := Status.Complete, receiveRate := s.participants[opponent])]
        && users == (if Writes(OpenBranch(UserOf(old(users), swapOwner), s.amount, s.side))
             then old(users)[swapOwner := OpenUser(UserOf(old(users), swapOwner), s.amount, s.side, swapNum)]
             else old(users))
        && (fixlist, floatlist) ==
             OpenLists(UserOf(old(users), swapOwner), s.amount, s.side, swapOwner, old(fixlist), old(floatlist))
      ensures old(NoTags()) ==> NoTags() && floatlist == old(floatlist)
    {
      var found := GetSwap(swapNum);
      if found.Err? {
        return Fail(found.error);
      }
      var swap := found.value;
      if swap.owner != swapOwner {
        return Fail(NotSwapOwner);
      }
      if opponent !in swap.participants {
        return Fail(NoOpponent);
      }
      var rate := swap.participants[opponent];
      swap := swap.(opponent := opponent, participants := map[], status := Status.Complete, receiveRate := rate);
      r := ChangeExposure(swapOwner, swap.amount, swap.side, swapNum);
      if r.Fail? {
        return;
      }
      swaps := swaps[swapNum := swap];
    }

    /**
     * priceWash: charges the paying side and credits the receiving side by exposure times the
     * price movement; PRICE itself is left as it was.
     */
    method PriceWash(swapNum: U256, newPrice: U256) returns (r: Outcome)
      requires Valid()
      modifies this`users, this`swaps, this`defaultlist
      ensures Valid()
      ensures newPrice == old(price) ==>
        r == Pass && users == old(users) && swaps == old(swaps) && defaultlist == old(defaultlist)
      ensures newPrice != old(price) ==>
        var (payers, receivers) := Sides(old(price), newPrice, old(fixlist), old(floatlist));
        var dif := PriceDif(old(price), newPrice);
        && (r.Fail? <==>
              ChargeAborts(old(users), old(swaps).Keys, payers, dif) || CreditAborts(old(users), receivers, dif))
        && (r.Fail? && r.error != Overflow ==>
              r.error == NoSwap
              && exists a :: a in payers && PayAborts(UserOf(old(users), a), dif, old(swaps).Keys)
                              && Charge(UserOf(old(users), a), dif) < POW256)
        && (r.Pass? ==>
              var defaulted := DefaultedSwaps(old(users), payers, dif);
              && users == WashUsers(old(users), payers, receivers, dif)
              && swaps == MarkDefault(old(swaps), defaulted)
              && defaultlist == old(defaultlist) + defaulted)
      ensures r.Pass? && old(NoTags()) ==> NoTags()
    {
      var current := price;
      if current == newPrice {
        return Pass;
      }
      var dif := PriceDif(current, newPrice);
      var payers, receivers := floatlist, fixlist;
      if current < newPrice {
        payers, receivers := fixlist, floatlist;
      }
      ghost var before := users;
      r := ChargeSide(payers, dif);
      if r.Fail? {
        return;
      }
      assert forall a :: a in receivers ==> UserOf(users, a) == UserOf(before, a);
      r := CreditSide(receivers, dif);
    }

    /** The paying half of priceWash: charge each user, or default it when the deposit does not cover the charge. */
    method ChargeSide(payers: set<string>, dif: nat) returns (r: Outcome)
      requires Valid()
      modifies this`users, this`swaps, this`defaultlist
      ensures Valid()
      ensures r.Fail? <==> ChargeAborts(old(users), old(swaps).Keys, payers, dif)
      ensures r.Fail? ==>
        exists a :: a in payers && PayAborts(UserOf(old(users), a), dif, old(swaps).Keys)
                    && r.error == (if Charge(UserOf(old(users), a), dif) >= POW256 then Overflow else NoSwap)
      ensures r.Pass? ==> users == ChargedUsers(old(users), payers, dif)
      ensures r.Pass? ==> swaps == MarkDefault(old(swaps), DefaultedSwaps(old(users), payers, dif))
      ensures r.Pass? ==> defaultlist == old(defaultlist) + DefaultedSwaps(old(users), payers, dif)
    {
      var todo := payers;
      ghost var done: set<string> := {};
      while todo != {}
        invariant Valid()
        invariant todo + done == payers && todo !! done
        invariant users == ChargedUsers(old(users), done, dif)
        invariant swaps == MarkDefault(old(swaps), DefaultedSwaps(old(users), done, dif))
        invariant defaultlist == old(defaultlist) + DefaultedSwaps(old(users), done, dif)
        invariant !ChargeAborts(old(users), old(swaps).Keys, done, dif)
        decreases todo
      {
        var address :| address in todo;
        r := ChargeNext(old(users), old(swaps), old(defaultlist), done, address, dif);
        if r.Fail? {
          assert address in payers && PayAborts(UserOf(old(users), address), dif, old(swaps).Keys);
          return;
        }
        todo := todo - {address};
        done := done + {address};
      }
      r := Pass;
    }

    /**
     * One iteration of the paying loop, stated on the books: charging `address` after the
     * payers in `done` gives the books of `done + {address}`.
     */
    method ChargeNext(ghost users0: map<string, User>, ghost swaps0: map<U256, Swap>, ghost list0: set<U256>,
                      ghost done: set<string>, address: string, dif: nat) returns (r: Outcome)
      requires Valid()
      requires address !in done
      requires users == ChargedUsers(users0, done, dif)
      requires swaps == MarkDefault(swaps0, DefaultedSwaps(users0, done, dif))
      requires defaultlist == list0 + DefaultedSwaps(users0, done, dif)
      requires !ChargeAborts(users0, swaps0.Keys, done, dif)
      modifies this`users, this`swaps, this`defaultlist
      ensures Valid()
      ensures r.Fail? <==> PayAborts(UserOf(users0, address), dif, swaps0.Keys)
      ensures r.Fail? ==> r.error == (if Charge(UserOf(users0, address), dif) >= POW256 then Overflow else NoSwap)
      ensures r.Pass? ==> users == ChargedUsers(users0, done + {address}, dif)
      ensures r.Pass? ==> swaps == MarkDefault(swaps0, DefaultedSwaps(users0, done + {address}, dif))
      ensures r.Pass? ==> defaultlist == list0 + DefaultedSwaps(users0, done + {address}, dif)
      ensures r.Pass? ==> !ChargeAborts(users0, swaps0.Keys, done + {address}, dif)
    {
      ghost var before := (users, swaps, defaultlist);
      ChargeView(users0, swaps0, list0, done, address, dif, before);
      r := ChargeOne(address, dif);
      if r.Pass? {
        ChargeStep(users0, swaps0, list0, done, address, dif, before, (users, swaps, defaultlist));
      }
    }

    /** One iteration of the paying loop: the user at `address` pays its charge, or defaults. */
    method ChargeOne(address: string, dif: nat) returns (r: Outcome)
      requires Valid()
      modifies this`users, this`swaps, this`defaultlist
      ensures Valid()
      ensures r.Fail? <==> PayAborts(UserOf(old(users), address), dif, old(swaps).Keys)
      ensures r.Fail? ==> r.error == (if Charge(UserOf(old(users), address), dif) >= POW256 then Overflow else NoSwap)
      ensures r.Pass? ==> users == old(users)[address := Pay(UserOf(old(users), address), dif)]
      ensures r.Pass? ==> swaps == MarkDefault(old(swaps), DefaultedBy(UserOf(old(users), address), dif))
      ensures r.Pass? ==> defaultlist == old(defaultlist) + DefaultedBy(UserOf(old(users), address), dif)
    {
      var user := UserOf(users, address);
      var charge := user.exposure * dif;
      if charge >= POW256 {
        return Fail(Overflow);
      }
      if user.deposit > charge {
        DepositWriteKeepsListed(users, floatlist, address, user.(deposit := user.deposit - charge));
        users := users[address := user.(deposit := user.deposit - charge)];
        r := Pass;
      } else {
        r := Default(address);
      }
    }

    /** The receiving half of priceWash: credit each user its exposure times the movement. */
    method CreditSide(receivers: set<string>, dif: nat) returns (r: Outcome)
      requires Valid()
      modifies this`users
      ensures Valid()
      ensures r.Fail? <==> CreditAborts(old(users), receivers, dif)
      ensures r.Fail? ==> r.error == Overflow
      ensures r.Pass? ==> users == CreditedUsers(old(users), receivers, dif)
    {
      var todo := receivers;
      ghost var done: set<string> := {};
      while todo != {}
        invariant Valid()
        invariant todo + done == receivers && todo !! done
        invariant !CreditAborts(old(users), done, dif)
        invariant users == CreditedUsers(old(users), done, dif)
        decreases todo
      {
        var address :| address in todo;
        r := CreditNext(old(users), done, address, dif);
        if r.Fail? {
          assert address in receivers && ReceiveAborts(UserOf(old(users), address), dif);
          return;
        }
        todo := todo - {address};
        done := done + {address};
      }
      r := Pass;
    }

    /** One iteration of the receiving loop: crediting `address` after the receivers in `done`. */
    method CreditNext(ghost users0: map<string, User>, ghost done: set<string>, address: string, dif: nat)
      returns (r: Outcome)
      requires Valid()
      requires address !in done
      requires !CreditAborts(users0, done, dif)
      requires users == CreditedUsers(users0, done, dif)
      modifies this`users
      ensures Valid()
      ensures r.Fail? <==> ReceiveAborts(UserOf(users0, address), dif)
      ensures r.Fail? ==> r.error == Overflow
      ensures r.Pass? ==> !CreditAborts(users0, done + {address}, dif)
      ensures r.Pass? ==> users == CreditedUsers(users0, done + {address}, dif)
    {
      var user := UserOf(users, address);
      assert user == UserOf(users0, address);
      var credit := user.exposure * dif;
      if credit >= POW256 || user.deposit + credit >= POW256 {
        return Fail(Overflow);
      }
      CreditedUsersAdd(users0, done, address, dif);
      assert user.(deposit := user.deposit + credit) == Receive(UserOf(users0, address), dif);
      DepositWriteKeepsListed(users, floatlist, address, user.(deposit := user.deposit + credit));
      users := users[address := user.(deposit := user.deposit + credit)];
      r := Pass;
    }

    /** complete: after maturity, closes the owner's exposure; the swap record is written back unchanged. */
    method Complete(swapNum: U256, now: U256) returns (r: Outcome)
      requires Valid()
      modifies this`users
      ensures Valid()
      ensures r.Pass? <==>
        swapNum in old(swaps) && old(swaps)[swapNum].maturity < now
        && !CloseOverflows(UserOf(old(users), old(swaps)[swapNum].owner), old(swaps)[swapNum].amount, old(swaps)[swapNum].side)
      ensures r.Fail? ==> users == old(users)
      ensures r.Fail? ==>
        r.error == if swapNum !in old(swaps) then NoSwap
          else if old(swaps)[swapNum].maturity >= now then NotMatured else Overflow
      ensures r.Pass? ==>
        var s := old(swaps)[swapNum];
        users == if CloseBranch(UserOf(old(users), s.owner), s.amount, s.side) == Skip then old(users)
          else old(users)[s.owner := CloseUser(UserOf(old(users), s.owner), s.amount, s.side, swapNum)]
      ensures old(NoTags()) ==> NoTags()
    {
      var found := GetSwap(swapNum);
      if found.Err? {
        return Fail(found.error);
      }
      var swap := found.value;
      if !(swap.maturity < now) {
        return Fail(NotMatured);
      }
      r := ChangeExposureClose(swap.owner, swap.amount, swap.side, swapNum);
    }

    /** deposit: adds `amount` to the user's collateral. */
    method Deposit(address: string, amount: U256) returns (r: Outcome)
      requires Valid()
      modifies this`users
      ensures Valid()
      ensures r.Fail? <==> UserOf(old(users), address).deposit + amount >= POW256
      ensures r.Fail? ==> r.error == Overflow && users == old(users)
      ensures r.Pass? ==> users == old(users)[address := UserOf(old(users), address).(deposit := UserOf(old(users), address).deposit + amount)]
      ensures old(NoTags()) ==> NoTags()
    {
      var user := UserOf(users, address);
      if user.deposit + amount >= POW256 {
        return Fail(Overflow);
      }
      user := user.(deposit := user.deposit + amount);
      users := users[address := user];
      r := Pass;
    }
  }

  /**
   * A swap is decided at most once: swapDecision clears the bids, so deciding the same swap
   * again, for any opponent, aborts with "oppornent does not exist".
   */
  method DecisionIsFinal(c: Contract, swapNum: U256, first: string, second: string, swapOwner: string)
    returns (r1: Outcome, r2: Outcome)
    requires c.Valid()
    modifies c
    ensures r1.Pass? ==> r2 == Fail(NoOpponent)
  {
    r1 := c.SwapDecision(swapNum, first, swapOwner);
    r2 := c.SwapDecision(swapNum, second, swapOwner);
  }
}
