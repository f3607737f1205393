/**
 The point service: a sequential state machine over the balance table and the
 history table. `ChargePoint` and `UsePoint` are all-or-nothing: a rejected
 request yields only an error, so the caller keeps the ledger it had; an
 accepted one writes exactly one balance and appends exactly one history line.
 */
module PointService {
  import opened Points
  import UserPointTable
  import PointHistoryTable

  /** The two stores the service owns. */
  datatype Ledger = Ledger(points: UserPointTable.Table, histories: PointHistoryTable.History)

  /** What a mutating request returns: the new ledger with the snapshot the
      balance write produced, or the reason it was rejected. */
  datatype Outcome =
    | Success(ledger: Ledger, point: UserPoint)
    | Failure(error: PointError)

  /** The ledger before any request. */
  function EmptyLedger(): (l: Ledger)
    ensures forall id :: GetId(l, id) == UserPoint(id, 0)
    ensures forall id :: GetPointHistory(l, id) == []
  {
    Ledger(UserPointTable.Empty(), [])
  }

  /** Every stored balance lies between zero and the cap. */
  predicate Valid(l: Ledger) {
    forall id :: id in l.points ==> InRange(l.points[id])
  }

  /** The balance snapshot of `id`: the stored balance of a written user, and
      balance 0 for a user never written. */
  function GetId(l: Ledger, id: int): (r: UserPoint)
    ensures r.id == id
    ensures id in l.points ==> r.point == l.points[id]
    ensures id !in l.points ==> r.point == 0
    ensures Valid(l) ==> InRange(r.point)
  {
    UserPointTable.SelectById(l.points, id)
  }

  /** The history lines of `id`, oldest first; only lines of that user. */
  function GetPointHistory(l: Ledger, id: int): (r: seq<PointHistory>)
    ensures forall x :: x in r <==> x in l.histories && x.userId == id
  {
    PointHistoryTable.SelectAllByUserId(l.histories, id)
  }

  /** Adds `amount` to the balance of `id`, unless the result would exceed the
      cap. No sign check is made on `amount`. */
  function ChargePoint(l: Ledger, id: int, amount: int, chargeDate: int): (r: Outcome)
    ensures r.Failure? <==> GetId(l, id).point + amount > MaxBalance
    ensures r.Failure? ==> r.error == BalanceCapExceeded
    ensures r.Success? ==> r.point == GetId(r.ledger, id) == UserPoint(id, GetId(l, id).point + amount)
    ensures r.Success? ==>
      r.ledger.histories == l.histories + [PointHistory(id, amount, Charge, chargeDate)]
    ensures r.Success? ==>
      GetPointHistory(r.ledger, id) == GetPointHistory(l, id) + [PointHistory(id, amount, Charge, chargeDate)]
    ensures r.Success? ==> forall other :: other != id ==>
      GetId(r.ledger, other) == GetId(l, other) && GetPointHistory(r.ledger, other) == GetPointHistory(l, other)
  {
    var userPoint := UserPointTable.SelectById(l.points, id);
    if userPoint.point + amount > MaxBalance then
      Failure(BalanceCapExceeded)
    else
      var (points', charged) := UserPointTable.InsertOrUpdate(l.points, id, userPoint.point + amount);
      var histories' := PointHistoryTable.Insert(l.histories, id, amount, Charge, chargeDate);
      Success(Ledger(points', histories'), charged)
  }

  /** Takes `amount` from the balance of `id`, unless the balance is smaller
      than `amount`. No sign check is made on `amount`. */
  function UsePoint(l: Ledger, id: int, amount: int, useDate: int): (r: Outcome)
    ensures r.Failure? <==> GetId(l, id).point < amount
    ensures r.Failure? ==> r.error == InsufficientBalance
    ensures r.Success? ==> r.point == GetId(r.ledger, id) == UserPoint(id, GetId(l, id).point - amount)
    ensures r.Success? ==>
      r.ledger.histories == l.histories + [PointHistory(id, amount, Use, useDate)]
    ensures r.Success? ==>
      GetPointHistory(r.ledger, id) == GetPointHistory(l, id) + [PointHistory(id, amount, Use, useDate)]
    ensures r.Success? ==> forall other :: other != id ==>
      GetId(r.ledger, other) == GetId(l, other) && GetPointHistory(r.ledger, other) == GetPointHistory(l, other)
  {
    var userPoint := UserPointTable.SelectById(l.points, id);
    if userPoint.point < amount then
      Failure(InsufficientBalance)
    else
      var (points', used) := UserPointTable.InsertOrUpdate(l.points, id, userPoint.point - amount);
      var histories' := PointHistoryTable.Insert(l.histories, id, amount, Use, useDate);
      Success(Ledger(points', histories'), used)
  }

  /** With a non-negative amount, an accepted charge keeps every balance
      between zero and the cap. */
  lemma ChargePreservesValid(l: Ledger, id: int, amount: int, chargeDate: int)
    requires Valid(l) && amount >= 0
    ensures ChargePoint(l, id, amount, chargeDate).Success? ==> Valid(ChargePoint(l, id, amount, chargeDate).ledger)
  {
  }

  /** With a non-negative amount, an accepted use keeps every balance between
      zero and the cap. */
  lemma UsePreservesValid(l: Ledger, id: int, amount: int, useDate: int)
    requires Valid(l) && amount >= 0
    ensures UsePoint(l, id, amount, useDate).Success? ==> Valid(UsePoint(l, id, amount, useDate).ledger)
  {
  }

  /** Without the sign condition the range is not kept: a negative charge
      takes an empty account below zero, and a negative use lifts it above
      the cap. */
  lemma NegativeAmountsLeaveRange()
    ensures var r := ChargePoint(EmptyLedger(), 1, -1, 0);
            r.Success? && Valid(EmptyLedger()) && !Valid(r.ledger)
    ensures var r := UsePoint(EmptyLedger(), 1, -(MaxBalance + 1), 0);
            r.Success? && r.point.point > MaxBalance
  {
    var r := ChargePoint(EmptyLedger(), 1, -1, 0);
    assert r.ledger.points[1] == -1;
  }

  /** An accepted charge followed by a use of the same amount restores every
      balance a reader can see, and appends exactly a CHARGE line and then a
      USE line. The use can only fail if the balance was already negative. */
  lemma ChargeThenUseRestores(l: Ledger, id: int, amount: int, chargeDate: int, useDate: int)
    requires Valid(l)
    requires ChargePoint(l, id, amount, chargeDate).Success?
    ensures var charged := ChargePoint(l, id, amount, chargeDate).ledger;
            var used := UsePoint(charged, id, amount, useDate);
            && used.Success?
            && (forall k :: GetId(used.ledger, k) == GetId(l, k))
            && used.ledger.histories
               == l.histories + [PointHistory(id, amount, Charge, chargeDate), PointHistory(id, amount, Use, useDate)]
  {
    var b := GetId(l, id).point;
    var charged := ChargePoint(l, id, amount, chargeDate).ledger;
    assert GetId(charged, id).point == b + amount;
    var used := UsePoint(charged, id, amount, useDate);
    assert used.Success?;
    assert GetId(used.ledger, id) == UserPoint(id, b) == GetId(l, id);
    forall k | k != id
      ensures GetId(used.ledger, k) == GetId(l, k)
    {
      assert GetId(used.ledger, k) == GetId(charged, k);
    }
    assert charged.histories == l.histories + [PointHistory(id, amount, Charge, chargeDate)];
    assert used.ledger.histories == charged.histories + [PointHistory(id, amount, Use, useDate)];
  }
}
