/**
 * `TransferServiceImpl.transfer` over an in-memory account store: two
 * queries, two balance changes on the returned `Account` objects, two updates
 * (the `to` account first), with Java `int` arithmetic and no catch.
 */
module Transfers {
  import opened Values

  const TWO_32: int := 0x1_0000_0000

  /** Java `int`. */
  type Int32 = x: int | -0x8000_0000 <= x < 0x8000_0000

  /** Java `int` arithmetic: the result taken modulo 2^32 into the signed range. */
  function Wrap32(x: int): (r: Int32)
    ensures (x - r) % TWO_32 == 0
    ensures -0x8000_0000 <= x < 0x8000_0000 ==> r == x
  {
    var m := x % TWO_32;
    if m >= 0x8000_0000 then m - TWO_32 else m
  }

  /** Two integers congruent modulo 2^32 wrap to the same `int`. */
  lemma Wrap32Congruent(x: int, y: int)
    requires (x - y) % TWO_32 == 0
    ensures Wrap32(x) == Wrap32(y)
  {
    var d := (x - y) / TWO_32;
    assert x - y == d * TWO_32;
    assert x % TWO_32 == y % TWO_32 by {
      assert x == y + d * TWO_32;
    }
  }

  /** An account row: `Account` (card number and balance). */
  class Account {
    const cardNo: string
    var money: Int32

    constructor(cardNo: string, money: Int32)
      ensures this.cardNo == cardNo && this.money == money
    {
      this.cardNo := cardNo;
      this.money := money;
    }

    method SetMoney(money: Int32)
      modifies this
      ensures this.money == money
    {
      this.money := money;
    }
  }

  /** A call on the account store, in the order made. */
  datatype DaoCall = Query(cardNo: string) | Update(cardNo: string, money: Int32)

  /**
   * An in-memory `AccountDao`: balances by card number, the calls made so
   * far, and the exception the call with a given index throws.
   */
  class FakeAccountDao {
    var balances: map<string, Int32>
    var calls: seq<DaoCall>
    const faults: map<nat, Exc>

    constructor(balances: map<string, Int32>, faults: map<nat, Exc>)
      ensures this.balances == balances && this.calls == [] && this.faults == faults
    {
      this.balances := balances;
      this.calls := [];
      this.faults := faults;
    }

    /** `queryAccountByCardNo`: a new `Account` for a known card, null for an unknown one. */
    method QueryAccountByCardNo(cardNo: string) returns (r: Result<Account?>)
      modifies this
      ensures calls == old(calls) + [Query(cardNo)] && balances == old(balances)
      ensures |old(calls)| in faults ==> r == Err(faults[|old(calls)|])
      ensures |old(calls)| !in faults ==> r.Ok? && (r.value != null <==> cardNo in balances)
      ensures r.Ok? && r.value != null ==> fresh(r.value) && r.value.cardNo == cardNo && r.value.money == balances[cardNo]
    {
      var k := |calls|;
      calls := calls + [Query(cardNo)];
      if k in faults {
        r := Err(faults[k]);
      } else if cardNo in balances {
        var a := new Account(cardNo, balances[cardNo]);
        r := Ok(a);
      } else {
        r := Ok(null);
      }
    }

    /** `updateAccountByCardNo`: store the account's balance under its card; the number of rows changed. */
    method UpdateAccountByCardNo(account: Account) returns (r: Result<int>)
      modifies this
      ensures calls == old(calls) + [Update(account.cardNo, account.money)]
      ensures |old(calls)| in faults ==> r == Err(faults[|old(calls)|]) && balances == old(balances)
      ensures |old(calls)| !in faults && account.cardNo in old(balances) ==>
        r == Ok(1) && balances == old(balances)[account.cardNo := account.money]
      ensures |old(calls)| !in faults && account.cardNo !in old(balances) ==> r == Ok(0) && balances == old(balances)
    {
      var k := |calls|;
      calls := calls + [Update(account.cardNo, account.money)];
      if k in faults {
        r := Err(faults[k]);
      } else if account.cardNo in balances {
        balances := balances[account.cardNo := account.money];
        r := Ok(1);
      } else {
        r := Ok(0);
      }
    }
  }

  /** The store calls one transfer makes, the balances it leaves, and what it throws. */
  datatype TransferRun = TransferRun(calls: seq<DaoCall>, balances: map<string, Int32>, thrown: Option<Exc>)

  /**
   * `transfer` on a store with balances `bal` whose next call has index `n`:
   * the first store exception ends it; a missing card is a null `Account`,
   * whose use throws `NullPointerException` before any update.
   */
  function Transferred(bal: map<string, Int32>, faults: map<nat, Exc>, n: nat, from: string, to: string, money: Int32): (r: TransferRun)
    ensures 1 <= |r.calls| <= 4 && r.calls[0] == Query(from)
    ensures r.balances.Keys == bal.Keys
    ensures r.thrown.None? <==> Completes(bal, faults, n, from, to)
    ensures r.thrown.None? ==> |r.calls| == 4
  {
    if n in faults then TransferRun([Query(from)], bal, Some(faults[n]))
    else if n + 1 in faults then TransferRun([Query(from), Query(to)], bal, Some(faults[n + 1]))
    else if from !in bal || to !in bal then TransferRun([Query(from), Query(to)], bal, Some(NullPointer))
    else
      var newFrom := Wrap32(bal[from] - money);
      var newTo := Wrap32(bal[to] + money);
      var updateTo := [Query(from), Query(to), Update(to, newTo)];
      if n + 2 in faults then TransferRun(updateTo, bal, Some(faults[n + 2]))
      else
        var afterTo := bal[to := newTo];
        if n + 3 in faults then TransferRun(updateTo + [Update(from, newFrom)], afterTo, Some(faults[n + 3]))
        else TransferRun(updateTo + [Update(from, newFrom)], afterTo[from := newFrom], None)
  }

  /** The transfer runs to the end exactly when no store call throws and both cards exist. */
  predicate Completes(bal: map<string, Int32>, faults: map<nat, Exc>, n: nat, from: string, to: string) {
    n !in faults && n + 1 !in faults && n + 2 !in faults && n + 3 !in faults && from in bal && to in bal
  }

  class TransferServiceImpl {
    /** The `@MyAutowired("accountDao")` store; null when nothing was bound to that name. */
    const accountDao: FakeAccountDao?

    constructor(accountDao: FakeAccountDao?)
      ensures this.accountDao == accountDao
    {
      this.accountDao := accountDao;
    }

    /** `transfer`: returns the exception it throws, if any. */
    method Transfer(fromCardNo: string, toCardNo: string, money: Int32) returns (thrown: Option<Exc>)
      modifies accountDao
      ensures accountDao == null ==> thrown == Some(NullPointer)
      ensures accountDao != null ==>
        var r := Transferred(old(accountDao.balances), accountDao.faults, |old(accountDao.calls)|, fromCardNo, toCardNo, money);
        accountDao.calls == old(accountDao.calls) + r.calls && accountDao.balances == r.balances && thrown == r.thrown
    {
      if accountDao == null {
        return Some(NullPointer);
      }
      var from := accountDao.QueryAccountByCardNo(fromCardNo);
      if from.Err? {
        return Some(from.error);
      }
      var to := accountDao.QueryAccountByCardNo(toCardNo);
      if to.Err? {
        return Some(to.error);
      }
      if from.value == null {
        return Some(NullPointer);
      }
      from.value.SetMoney(Wrap32(from.value.money - money));
      if to.value == null {
        return Some(NullPointer);
      }
      to.value.SetMoney(Wrap32(to.value.money + money));
      var updated := accountDao.UpdateAccountByCardNo(to.value);
      if updated.Err? {
        return Some(updated.error);
      }
      updated := accountDao.UpdateAccountByCardNo(from.value);
      if updated.Err? {
        return Some(updated.error);
      }
      thrown := None;
    }
  }

  // ---------------------------------------------------------------------
  // What a transfer promises.
  // ---------------------------------------------------------------------

  /**
   * `from` is queried before `to`, `to` is written before `from`, and a
   * completed transfer makes exactly two queries and two updates; a failed
   * one stops at the call that failed.
   */
  lemma CallOrder(bal: map<string, Int32>, faults: map<nat, Exc>, n: nat, from: string, to: string, money: Int32)
    ensures var r := Transferred(bal, faults, n, from, to, money);
      1 <= |r.calls| <= 4 && r.calls[0] == Query(from) && (|r.calls| >= 2 ==> r.calls[1] == Query(to))
      && (|r.calls| >= 3 ==> r.calls[2].Update? && r.calls[2].cardNo == to)
      && (|r.calls| == 4 ==> r.calls[3].Update? && r.calls[3].cardNo == from)
    ensures var r := Transferred(bal, faults, n, from, to, money);
      r.thrown.None? <==> Completes(bal, faults, n, from, to)
    ensures var r := Transferred(bal, faults, n, from, to, money);
      r.thrown.None? ==> |r.calls| == 4
    ensures var r := Transferred(bal, faults, n, from, to, money);
      r.thrown.Some? && |r.calls| < 4 ==> r.balances == bal
  {
  }

  /**
   * A store exception at the transfer's `k`-th call (0 and 1 the queries of
   * `from` and `to`, 2 and 3 the updates of `to` and `from`) ends the
   * transfer right there: `k + 1` calls made, that same exception thrown, and
   * no balance changed unless the update of `to` had already gone through.
   */
  lemma FaultEndsTransfer(bal: map<string, Int32>, faults: map<nat, Exc>, n: nat, from: string, to: string, money: Int32, k: nat)
    requires k <= 3 && n + k in faults && forall i :: n <= i < n + k ==> i !in faults
    requires k >= 2 ==> from in bal && to in bal
    ensures var r := Transferred(bal, faults, n, from, to, money);
      |r.calls| == k + 1 && r.thrown == Some(faults[n + k]) && (k < 3 ==> r.balances == bal)
  {
    assert k >= 1 ==> n !in faults;
    assert k >= 2 ==> n + 1 !in faults;
    assert k >= 3 ==> n + 2 !in faults;
  }

  /**
   * When both queries succeed but a card is unknown, the null `Account` is
   * dereferenced: `NullPointerException` after the two queries, before any
   * update, with every balance unchanged.
   */
  lemma MissingCardThrows(bal: map<string, Int32>, faults: map<nat, Exc>, n: nat, from: string, to: string, money: Int32)
    requires n !in faults && n + 1 !in faults && (from !in bal || to !in bal)
    ensures var r := Transferred(bal, faults, n, from, to, money);
      r.calls == [Query(from), Query(to)] && r.thrown == Some(NullPointer) && r.balances == bal
  {
  }

  /**
   * A completed transfer between two cards debits `from` by `money` and
   * credits `to` by `money`, in `int` arithmetic, and touches no other card.
   */
  lemma DebitAndCredit(bal: map<string, Int32>, faults: map<nat, Exc>, n: nat, from: string, to: string, money: Int32)
    requires Completes(bal, faults, n, from, to) && from != to
    ensures var r := Transferred(bal, faults, n, from, to, money);
      r.balances.Keys == bal.Keys
      && r.balances[from] == Wrap32(bal[from] - money) && r.balances[to] == Wrap32(bal[to] + money)
      && forall c :: c in bal && c != from && c != to ==> r.balances[c] == bal[c]
  {
  }

  /** Without overflow the changes are exact. */
  lemma ExactWithoutOverflow(bal: map<string, Int32>, faults: map<nat, Exc>, n: nat, from: string, to: string, money: Int32)
    requires Completes(bal, faults, n, from, to) && from != to
    requires -0x8000_0000 <= bal[from] - money < 0x8000_0000 && -0x8000_0000 <= bal[to] + money < 0x8000_0000
    ensures var r := Transferred(bal, faults, n, from, to, money);
      r.balances[from] == bal[from] - money && r.balances[to] == bal[to] + money
      && r.balances[from] as int + r.balances[to] == bal[from] as int + bal[to]
  {
  }

  /**
   * The two balances always add up to the same `int`, overflow or not: the
   * wrapped sum of the two cards is the same before and after.
   */
  lemma SumConserved(bal: map<string, Int32>, faults: map<nat, Exc>, n: nat, from: string, to: string, money: Int32)
    requires Completes(bal, faults, n, from, to) && from != to
    ensures var r := Transferred(bal, faults, n, from, to, money);
      Wrap32(r.balances[from] as int + r.balances[to]) == Wrap32(bal[from] as int + bal[to])
  {
    var r := Transferred(bal, faults, n, from, to, money);
    assert r.balances[from] == Wrap32(bal[from] - money) && r.balances[to] == Wrap32(bal[to] + money);
    WrappedShiftKeepsSum(bal[from], bal[to], money);
  }

  /** Taking `money` from one `int` and adding it to another keeps their wrapped sum. */
  lemma WrappedShiftKeepsSum(a: int, b: int, money: int)
    ensures Wrap32(Wrap32(a - money) as int + Wrap32(b + money)) == Wrap32(a + b)
  {
    var x, y := Wrap32(a - money) as int, Wrap32(b + money) as int;
    var i, j := (a - money - x) / TWO_32, (b + money - y) / TWO_32;
    assert a - money - x == i * TWO_32;
    assert b + money - y == j * TWO_32;
    assert (a + b) - (x + y) == (i + j) * TWO_32;
    Wrap32Congruent(a + b, x + y);
  }

  /** A transfer from a card to itself makes two updates of that card, the second a debit, so the card loses `money`. */
  lemma SelfTransferDebits(bal: map<string, Int32>, faults: map<nat, Exc>, n: nat, card: string, money: Int32)
    requires Completes(bal, faults, n, card, card)
    ensures var r := Transferred(bal, faults, n, card, card, money);
      r.balances == bal[card := Wrap32(bal[card] - money)]
  {
  }

  /** When the second update throws, the first stays applied: `to` is credited, `from` keeps its balance. */
  lemma SecondUpdateFailure(bal: map<string, Int32>, faults: map<nat, Exc>, n: nat, from: string, to: string, money: Int32)
    requires n !in faults && n + 1 !in faults && n + 2 !in faults && n + 3 in faults
    requires from in bal && to in bal && from != to
    ensures var r := Transferred(bal, faults, n, from, to, money);
      r.thrown == Some(faults[n + 3]) && r.balances == bal[to := Wrap32(bal[to] + money)]
      && r.balances[from] == bal[from]
  {
  }

  /** Neither the sign of `money` nor the balance is checked: a transfer can overdraw `from`. */
  lemma Overdraws(bal: map<string, Int32>, faults: map<nat, Exc>, n: nat, from: string, to: string, money: Int32)
    requires Completes(bal, faults, n, from, to) && from != to
    requires 0 <= bal[from] < money
    ensures Transferred(bal, faults, n, from, to, money).balances[from] < 0
  {
  }
}
