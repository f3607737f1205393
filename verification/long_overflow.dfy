/**
 The service computes `point + amount` (in the cap check and in the write of
 `chargePoint`) and `point - amount` (in the write of `usePoint`) in Java's
 64-bit `long`, which wraps around silently. This module models both with that
 wrap-around, shows that an extreme amount slips past the cap check, and gives
 a rearranged check that cannot wrap. The rest of the model uses unbounded
 integers, which is the behaviour the checks evidently intend.
 */
module LongOverflow {
  import opened Points
  import opened PointService
  import UserPointTable
  import PointHistoryTable

  const LongMin: int := -0x8000_0000_0000_0000
  const LongMax: int := 0x7fff_ffff_ffff_ffff
  const LongModulus: int := 0x1_0000_0000_0000_0000

  predicate IsLong(x: int) {
    LongMin <= x <= LongMax
  }

  /** The `long` that Java arithmetic yields for the mathematical result `x`:
      the one value in range congruent to `x` modulo 2^64. */
  function WrapLong(x: int): (r: int)
    ensures IsLong(r)
    ensures (r - x) % LongModulus == 0
    ensures IsLong(x) ==> r == x
  {
    var m := x % LongModulus;
    if m > LongMax then m - LongModulus else m
  }

  /** `chargePoint` as written: the sum in the guard and in the write wraps. */
  function ChargePointAsWritten(l: Ledger, id: int, amount: int, chargeDate: int): (r: Outcome)
    ensures r.Failure? <==> WrapLong(GetId(l, id).point + amount) > MaxBalance
    ensures r.Success? ==> r.point == GetId(r.ledger, id) == UserPoint(id, WrapLong(GetId(l, id).point + amount))
  {
    var userPoint := UserPointTable.SelectById(l.points, id);
    var sum := WrapLong(userPoint.point + amount);
    if sum > MaxBalance then
      Failure(BalanceCapExceeded)
    else
      var (points', charged) := UserPointTable.InsertOrUpdate(l.points, id, sum);
      var histories' := PointHistoryTable.Insert(l.histories, id, amount, Charge, chargeDate);
      Success(Ledger(points', histories'), charged)
  }

  /** `usePoint` as written: the difference in the write wraps. */
  function UsePointAsWritten(l: Ledger, id: int, amount: int, useDate: int): (r: Outcome)
    ensures r.Failure? <==> GetId(l, id).point < amount
    ensures r.Success? ==> r.point == GetId(r.ledger, id) == UserPoint(id, WrapLong(GetId(l, id).point - amount))
  {
    var userPoint := UserPointTable.SelectById(l.points, id);
    if userPoint.point < amount then
      Failure(InsufficientBalance)
    else
      var (points', used) := UserPointTable.InsertOrUpdate(l.points, id, WrapLong(userPoint.point - amount));
      var histories' := PointHistoryTable.Insert(l.histories, id, amount, Use, useDate);
      Success(Ledger(points', histories'), used)
  }

  /** A user holding 1 point charges Long.MAX_VALUE: the sum wraps to
      Long.MIN_VALUE, passes the cap check, and is stored as the balance. */
  lemma ChargeOverflowPassesCap()
    ensures var l := ChargePoint(EmptyLedger(), 1, 1, 0).ledger;
            var r := ChargePointAsWritten(l, 1, LongMax, 0);
            && Valid(l)
            && r.Success?
            && r.point.point == LongMin
            && !Valid(r.ledger)
  {
    var l := ChargePoint(EmptyLedger(), 1, 1, 0).ledger;
    assert GetId(l, 1).point == 1;
    assert WrapLong(1 + LongMax) == LongMin;
    var r := ChargePointAsWritten(l, 1, LongMax, 0);
    assert r.ledger.points[1] == LongMin;
  }

  /** Whenever the true result fits in a `long`, the code as written and the
      unbounded model agree, so the unbounded model is the as-written one on
      every input that does not overflow. */
  lemma AgreesWithoutOverflow(l: Ledger, id: int, amount: int, date: int)
    ensures IsLong(GetId(l, id).point + amount) ==>
      ChargePointAsWritten(l, id, amount, date) == ChargePoint(l, id, amount, date)
    ensures IsLong(GetId(l, id).point - amount) ==>
      UsePointAsWritten(l, id, amount, date) == UsePoint(l, id, amount, date)
  {
  }

  /** `chargePoint` with the cap check rearranged so that nothing can wrap:
      `amount > maxBalnce - point` in place of `point + amount > maxBalnce`.
      All arithmetic is still 64-bit. */
  function ChargePointReordered(l: Ledger, id: int, amount: int, chargeDate: int): (r: Outcome)
    ensures r.Failure? <==> amount > WrapLong(MaxBalance - GetId(l, id).point)
    ensures r.Success? ==> r.point == GetId(r.ledger, id) == UserPoint(id, WrapLong(GetId(l, id).point + amount))
  {
    var userPoint := UserPointTable.SelectById(l.points, id);
    if amount > WrapLong(MaxBalance - userPoint.point) then
      Failure(BalanceCapExceeded)
    else
      var (points', charged) := UserPointTable.InsertOrUpdate(l.points, id, WrapLong(userPoint.point + amount));
      var histories' := PointHistoryTable.Insert(l.histories, id, amount, Charge, chargeDate);
      Success(Ledger(points', histories'), charged)
  }

  /** On a valid ledger, for every `long` amount, the rearranged check in
      64-bit arithmetic behaves exactly as the unbounded model: nothing wraps,
      and the cap is kept. */
  lemma ReorderedCheckIsExact(l: Ledger, id: int, amount: int, chargeDate: int)
    requires Valid(l) && IsLong(amount)
    ensures ChargePointReordered(l, id, amount, chargeDate) == ChargePoint(l, id, amount, chargeDate)
  {
  }
}
