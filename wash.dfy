/**
 * Mark-to-market (priceWash) and forced default, as functions of the state before the call.
 * When the reference price moves by `dif`, every user on the paying side is charged
 * exposure * dif (or defaulted when the deposit does not strictly exceed the charge) and every
 * user on the receiving side is credited exposure * dif.  Each user's update reads only that
 * user's own record, so the effect does not depend on the order in which a set is visited.
 */
module MarkToMarket {
  import opened Types

  /** The absolute price movement. */
  function PriceDif(oldPrice: nat, newPrice: nat): (d: nat)
    ensures d == 0 <==> oldPrice == newPrice
    ensures oldPrice + d == newPrice || newPrice + d == oldPrice
  {
    if oldPrice > newPrice then oldPrice - newPrice else newPrice - oldPrice
  }

  /** (paying list, receiving list): FLOATLIST pays on a fall, FIXLIST pays on a rise. */
  function Sides(oldPrice: nat, newPrice: nat, fix: set<string>, float: set<string>): (r: (set<string>, set<string>))
    ensures {r.0, r.1} == {fix, float}
    ensures newPrice < oldPrice ==> r.0 == float
    ensures newPrice > oldPrice ==> r.0 == fix
  {
    if oldPrice > newPrice then (float, fix) else (fix, float)
  }

  function Charge(u: User, dif: nat): nat
  {
    u.exposure * dif
  }

  /** A paying user survives the charge only when the deposit strictly exceeds it. */
  predicate Covers(u: User, dif: nat)
  {
    u.deposit > Charge(u, dif)
  }

  /** default: the user loses every swap, all exposure and the whole deposit; the tag stays. */
  function Defaulted(u: User): (r: User)
    ensures r.swaps == {} && r.exposure == 0 && r.deposit == 0
    ensures r.position == u.position && r.address == u.address
  {
    u.(swaps := {}, exposure := 0, deposit := 0)
  }

  /** A paying user's record after the charge: reduced deposit, or defaulted. */
  function Pay(u: User, dif: nat): (r: User)
    ensures Covers(u, dif) ==> r == u.(deposit := r.deposit) && r.deposit > 0 && r.deposit + Charge(u, dif) == u.deposit
    ensures !Covers(u, dif) ==> r == Defaulted(u)
  {
    if Covers(u, dif) then u.(deposit := u.deposit - Charge(u, dif)) else Defaulted(u)
  }

  /** A receiving user's record after the credit. */
  function Receive(u: User, dif: nat): (r: User)
    requires u.deposit + Charge(u, dif) < POW256
    ensures r == u.(deposit := r.deposit) && r.deposit == u.deposit + Charge(u, dif)
  {
    u.(deposit := u.deposit + Charge(u, dif))
  }

  /** A paying user makes the call abort: the product overflows, or its default meets a missing swap. */
  predicate PayAborts(u: User, dif: nat, swapIds: set<U256>)
  {
    Charge(u, dif) >= POW256 || (!Covers(u, dif) && !(u.swaps <= swapIds))
  }

  /** A receiving user makes the call abort: the product or the credited deposit overflows. */
  predicate ReceiveAborts(u: User, dif: nat)
  {
    Charge(u, dif) >= POW256 || u.deposit + Charge(u, dif) >= POW256
  }

  predicate ChargeAborts(users: map<string, User>, swapIds: set<U256>, payers: set<string>, dif: nat)
  {
    exists a :: a in payers && PayAborts(UserOf(users, a), dif, swapIds)
  }

  predicate CreditAborts(users: map<string, User>, receivers: set<string>, dif: nat)
  {
    exists a :: a in receivers && ReceiveAborts(UserOf(users, a), dif)
  }

  /** The paying users whose deposit does not cover the charge. */
  function Defaulters(users: map<string, User>, payers: set<string>, dif: nat): (d: set<string>)
    ensures d <= payers
    ensures forall a :: a in payers ==> (a in d <==> !Covers(UserOf(users, a), dif))
  {
    set a | a in payers && !Covers(UserOf(users, a), dif)
  }

  /**
   * The swap ids that a charge of the given payers marks DEFAULT: all swaps of the payers
   * that default, and no others.
   */
  function DefaultedSwaps(users: map<string, User>, payers: set<string>, dif: nat): (ids: set<U256>)
    ensures forall a :: a in payers && !Covers(UserOf(users, a), dif) ==> UserOf(users, a).swaps <= ids
  {
    set a, id | a in payers && !Covers(UserOf(users, a), dif) && id in UserOf(users, a).swaps :: id
  }

  /** Every id marked DEFAULT belongs to a payer that defaults. */
  lemma DefaultedSwapsOnlyDefaulters(users: map<string, User>, payers: set<string>, dif: nat, id: U256)
    requires id in DefaultedSwaps(users, payers, dif)
    ensures exists a :: a in payers && !Covers(UserOf(users, a), dif) && id in UserOf(users, a).swaps
  {
  }

  /** Charging one more payer adds that payer's swaps exactly when it defaults. */
  lemma DefaultedSwapsAdd(users: map<string, User>, done: set<string>, a: string, dif: nat)
    ensures DefaultedSwaps(users, done + {a}, dif) == DefaultedSwaps(users, done, dif) + DefaultedBy(UserOf(users, a), dif)
  {
    var l := DefaultedSwaps(users, done + {a}, dif);
    var r := DefaultedSwaps(users, done, dif) + DefaultedBy(UserOf(users, a), dif);
    forall id | id in l ensures id in r {
      var b :| b in done + {a} && !Covers(UserOf(users, b), dif) && id in UserOf(users, b).swaps;
    }
  }

  /** The swaps one paying user's default marks: none when it covers the charge. */
  function DefaultedBy(u: User, dif: nat): (ids: set<U256>)
    ensures ids == {} <==> Covers(u, dif) || u.swaps == {}
    ensures ids != {} ==> ids == u.swaps
  {
    if Covers(u, dif) then {} else u.swaps
  }

  lemma MarkDefaultTwice(swaps: map<U256, Swap>, xs: set<U256>, ys: set<U256>)
    ensures MarkDefault(MarkDefault(swaps, xs), ys) == MarkDefault(swaps, xs + ys)
  {
  }

  /** The swap records with every id of `ids` marked DEFAULT and nothing else changed. */
  function MarkDefault(swaps: map<U256, Swap>, ids: set<U256>): (r: map<U256, Swap>)
    ensures r.Keys == swaps.Keys
    ensures forall k :: k in swaps && k in ids ==> r[k] == swaps[k].(status := Default)
    ensures forall k :: k in swaps && k !in ids ==> r[k] == swaps[k]
  {
    map k | k in swaps :: if k in ids then swaps[k].(status := Default) else swaps[k]
  }

  /** The users after the paying side is charged. */
  function ChargedUsers(users: map<string, User>, payers: set<string>, dif: nat): (r: map<string, User>)
    ensures r.Keys == users.Keys + payers
    ensures forall a :: a in payers ==> r[a] == Pay(UserOf(users, a), dif)
    ensures forall a :: a !in payers ==> UserOf(r, a) == UserOf(users, a)
  {
    users + map a | a in payers :: Pay(UserOf(users, a), dif)
  }

  /** The users after the receiving side is credited. */
  function CreditedUsers(users: map<string, User>, receivers: set<string>, dif: nat): (r: map<string, User>)
    requires !CreditAborts(users, receivers, dif)
    ensures r.Keys == users.Keys + receivers
    ensures forall a :: a in receivers ==> r[a] == Receive(UserOf(users, a), dif)
    ensures forall a :: a !in receivers ==> UserOf(r, a) == UserOf(users, a)
  {
    users + map a | a in receivers :: Receive(UserOf(users, a), dif)
  }

  /**
   * The users after a whole priceWash with movement `dif`: each paying user that covers the
   * charge keeps a positive deposit reduced by exactly the charge, each other paying user is
   * defaulted, each receiving user gains exactly its charge, and nobody else changes.  No tag
   * changes anywhere.
   */
  function WashUsers(users: map<string, User>, payers: set<string>, receivers: set<string>, dif: nat)
    : (r: map<string, User>)
    requires payers !! receivers
    requires !CreditAborts(users, receivers, dif)
    ensures r.Keys == users.Keys + payers + receivers
    ensures forall a :: a in payers && Covers(UserOf(users, a), dif) ==>
      r[a].deposit > 0 && r[a].deposit + Charge(UserOf(users, a), dif) == UserOf(users, a).deposit
      && r[a] == UserOf(users, a).(deposit := r[a].deposit)
    ensures forall a :: a in payers && !Covers(UserOf(users, a), dif) ==> r[a] == Defaulted(UserOf(users, a))
    ensures forall a :: a in receivers ==> r[a] == UserOf(users, a).(deposit := UserOf(users, a).deposit + Charge(UserOf(users, a), dif))
    ensures forall a :: a !in payers && a !in receivers ==> UserOf(r, a) == UserOf(users, a)
    ensures forall a :: a in r ==> r[a].position == UserOf(users, a).position
  {
    var charged := ChargedUsers(users, payers, dif);
    assert forall a :: a in receivers ==> UserOf(charged, a) == UserOf(users, a);
    CreditedUsers(charged, receivers, dif)
  }

  /** Charging one more payer updates only that payer's record. */
  lemma ChargedUsersAdd(users: map<string, User>, done: set<string>, a: string, dif: nat)
    ensures ChargedUsers(users, done + {a}, dif) == ChargedUsers(users, done, dif)[a := Pay(UserOf(users, a), dif)]
  {
  }

  /** Crediting one more receiver updates only that receiver's record. */
  lemma CreditedUsersAdd(users: map<string, User>, done: set<string>, a: string, dif: nat)
    requires !CreditAborts(users, done, dif) && !ReceiveAborts(UserOf(users, a), dif)
    ensures !CreditAborts(users, done + {a}, dif)
    ensures CreditedUsers(users, done + {a}, dif) == CreditedUsers(users, done, dif)[a := Receive(UserOf(users, a), dif)]
  {
  }

  /** One user, picked from a non-empty set; the sums below take their elements in this order. */
  ghost function Pick(s: set<string>): (a: string)
    requires s != {}
    ensures a in s
  {
    var a :| a in s; a
  }

  ghost function DepositSum(users: map<string, User>, s: set<string>): nat
    decreases s
  {
    if s == {} then 0 else UserOf(users, Pick(s)).deposit + DepositSum(users, s - {Pick(s)})
  }

  ghost function ExposureSum(users: map<string, User>, s: set<string>): nat
    decreases s
  {
    if s == {} then 0 else UserOf(users, Pick(s)).exposure + ExposureSum(users, s - {Pick(s)})
  }

  /**
   * When every deposit in `s` gains (or loses) its owner's charge, the total deposit of `s` gains
   * (or loses) dif times the total exposure of `s`.
   */
  lemma {:induction false} DepositShift(before: map<string, User>, after: map<string, User>, s: set<string>, dif: nat, gain: bool)
    requires forall a :: a in s ==> Shifted(UserOf(before, a), UserOf(after, a), dif, gain)
    ensures DepositSum(after, s) as int ==
      if gain then DepositSum(before, s) + dif * ExposureSum(before, s)
      else DepositSum(before, s) - dif * ExposureSum(before, s)
    decreases s
  {
    if s != {} {
      var a := Pick(s);
      var rest := s - {a};
      DepositShift(before, after, rest, dif, gain);
      assert Shifted(UserOf(before, a), UserOf(after, a), dif, gain);
      var e := UserOf(before, a).exposure;
      var total := ExposureSum(before, rest);
      assert ExposureSum(before, s) == e + total;
      assert DepositSum(after, s) == UserOf(after, a).deposit + DepositSum(after, rest);
      assert DepositSum(before, s) == UserOf(before, a).deposit + DepositSum(before, rest);
      Distribute(dif, e, total);
    }
  }

  /** The deposit of `after` is that of `before` plus (gain) or minus its charge. */
  predicate Shifted(before: User, after: User, dif: nat, gain: bool)
  {
    if gain then after.deposit == before.deposit + Charge(before, dif)
    else after.deposit == before.deposit - Charge(before, dif)
  }

  lemma Distribute(dif: nat, e: nat, total: nat)
    ensures dif * (e + total) == e * dif + dif * total
  {
  }

  /**
   * Mark-to-market moves collateral in proportion to exposure: when nobody defaults, the paying
   * side's deposits fall by dif times its total exposure and the receiving side's rise by dif
   * times its total exposure.
   */
  lemma WashMovesCollateral(users: map<string, User>, payers: set<string>, receivers: set<string>, dif: nat)
    requires payers !! receivers
    requires !CreditAborts(users, receivers, dif)
    requires Defaulters(users, payers, dif) == {}
    ensures DepositSum(WashUsers(users, payers, receivers, dif), payers)
      == DepositSum(users, payers) - dif * ExposureSum(users, payers)
    ensures DepositSum(WashUsers(users, payers, receivers, dif), receivers)
      == DepositSum(users, receivers) + dif * ExposureSum(users, receivers)
  {
    var w := WashUsers(users, payers, receivers, dif);
    forall a | a in payers
      ensures Shifted(UserOf(users, a), UserOf(w, a), dif, false)
    {
      assert Covers(UserOf(users, a), dif);
    }
    DepositShift(users, w, payers, dif, false);
    assert forall a :: a in receivers ==> Shifted(UserOf(users, a), UserOf(w, a), dif, true);
    DepositShift(users, w, receivers, dif, true);
  }

  /**
   * Conservation: when the two sides carry the same total exposure and nobody defaults, the
   * collateral the paying side loses is exactly what the receiving side gains.
   */
  lemma WashConservesCollateral(users: map<string, User>, payers: set<string>, receivers: set<string>, dif: nat)
    requires payers !! receivers
    requires !CreditAborts(users, receivers, dif)
    requires Defaulters(users, payers, dif) == {}
    requires ExposureSum(users, payers) == ExposureSum(users, receivers)
    ensures DepositSum(users, payers) - DepositSum(WashUsers(users, payers, receivers, dif), payers)
      == DepositSum(WashUsers(users, payers, receivers, dif), receivers) - DepositSum(users, receivers)
  {
    WashMovesCollateral(users, payers, receivers, dif);
  }
}
