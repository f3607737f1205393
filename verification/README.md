# Point ledger model

This project is a Dafny model of the point service in the `hhplus-tdd` application, with proofs about it. The
service keeps one point balance per user id and an append-only history of accepted transactions. Its two
mutating operations are:

- `chargePoint` adds points. It is rejected when the new balance would exceed the cap of 1,000,000.
- `usePoint` spends points. It is rejected when the balance is smaller than the amount.

It also has two reads: `getId`, which returns a user's balance snapshot, and `getPointHistory`, which returns
that user's history lines.

The model is purely functional. A `Ledger` pairs the balance table (`map<int, int>`) with the history log
(`seq<PointHistory>`). Each mutating operation returns either `Success(newLedger, snapshot)` or
`Failure(error)`. A rejected call therefore hands back no ledger, and the caller keeps the one it had. This is
the all-or-nothing behaviour of the Java code, which throws before it touches either table.

Modules:

- `Points`: the value types, the cap, and the `InRange` predicate.
- `UserPointTable`: the balance table. A user that was never written reads as 0, and a write replaces the
  balance.
- `PointHistoryTable`: the history log. Lines are appended, and one user's lines are read back in append
  order.
- `PointService`: the four operations, and the lemmas about single calls.
- `PointRuns`: sequences of requests, each running to completion before the next starts. The lemmas hold for
  every serial order of a batch, and for nothing else (see Left out).
- `LongOverflow`: the 64-bit `long` arithmetic, as written: the sum at lines 30 and 34 of `PointService.java`
  and the difference at line 48 (see Findings).

Integers are unbounded everywhere except in `LongOverflow`. Timestamps are opaque integers supplied by the
caller.

Neither `chargePoint` nor `usePoint` checks the sign of `amount` (`PointService.java` lines 28-51), so a
negative amount is accepted. The range invariant therefore holds only for non-negative amounts, and
`PointService.NegativeAmountsLeaveRange` exhibits the failure for a negative one.

## Model

| member | source | states |
|---|---|---|
| UserPointTable.InsertOrUpdate | src/test/java/io/hhplus/tdd/UserPointTableTest.java:21-35 | after a write, reading that user gives the written balance and the returned snapshot; reading any other user gives what it gave before |
| UserPointTable.Empty | src/test/java/io/hhplus/tdd/UserPointTableTest.java:38-50 | in the empty table every user reads as balance 0 |
| PointHistoryTable.SelectAllByUserId | src/test/java/io/hhplus/tdd/PointHistoryTableTest.java:18-34 | a line is in a user's view iff it is in the log and belongs to that user; the view is no longer than the log |
| PointHistoryTable.Insert | src/main/java/io/hhplus/tdd/point/PointService.java:36 | appending keeps the old log as a prefix; the owner's view gains the new line at the end; every other user's view is unchanged |
| PointHistoryTable.SelectOfConcat | src/main/java/io/hhplus/tdd/point/PointService.java:24-26 | a user's view of two logs joined is the view of the first followed by the view of the second, so append order is kept |
| PointHistoryTable.SelectEmptyIffNoLines | src/test/java/io/hhplus/tdd/PointHistoryTableTest.java:37-48 | a user's view is empty iff no line of the log belongs to that user |
| PointService.EmptyLedger | src/test/java/io/hhplus/tdd/PointServiceTest.java:101-117 | before any request, every user reads as balance 0 with an empty history |
| PointService.GetId | src/test/java/io/hhplus/tdd/PointServiceTest.java:101-133 | the snapshot carries the requested id; a written user reads back the stored balance; an unknown user reads as 0; on a valid ledger the balance is within [0, 1,000,000] |
| PointService.GetPointHistory | src/main/java/io/hhplus/tdd/point/PointService.java:24-26 | the result holds exactly the log's lines that belong to the user |
| PointService.ChargePoint | src/main/java/io/hhplus/tdd/point/PointService.java:28-39 | rejected with BalanceCapExceeded iff balance + amount > 1,000,000; on success the user then reads balance + amount, which is also the returned snapshot, exactly one CHARGE line with the amount and date is appended to the log and to the user's history, and every other user's balance and history are unchanged |
| PointService.UsePoint | src/main/java/io/hhplus/tdd/point/PointService.java:41-51 | rejected with InsufficientBalance iff balance < amount; on success the user then reads balance - amount, which is also the returned snapshot, exactly one USE line is appended to the log and to the user's history, and every other user's balance and history are unchanged |
| PointService.ChargePreservesValid | src/main/java/io/hhplus/tdd/point/PointService.java:28-38 | with amount >= 0, an accepted charge keeps every balance within [0, 1,000,000] |
| PointService.UsePreservesValid | src/main/java/io/hhplus/tdd/point/PointService.java:41-50 | with amount >= 0, an accepted use keeps every balance within [0, 1,000,000] |
| PointService.NegativeAmountsLeaveRange | src/main/java/io/hhplus/tdd/point/PointService.java:28-50 | with no sign check, a charge of -1 is accepted and drives a balance below 0, and a use of -1,000,001 is accepted and lifts one above the cap |
| PointService.ChargeThenUseRestores | src/main/java/io/hhplus/tdd/point/PointService.java:28-50 | on a valid ledger, an accepted charge followed by a use of the same amount is accepted, every user then reads as before, and the log gains exactly a CHARGE line then a USE line |
| PointRuns.Apply | src/test/java/io/hhplus/tdd/PointServiceTest.java:37-56 | a request is rejected iff the ledger after it equals the ledger before it; the log grows by one line iff the request is accepted |
| PointRuns.RunOfConcat | src/test/java/io/hhplus/tdd/ConcurrencyTest.java:146-188 | running two batches one after the other is running their concatenation, and all requests are accepted iff both batches are |
| PointRuns.AcceptedRunAppendsLines | src/main/java/io/hhplus/tdd/point/PointService.java:34-50 | if every request in a batch is accepted, the log gains exactly the batch's lines, in the order sent |
| PointRuns.AcceptedCount | src/main/java/io/hhplus/tdd/point/PointService.java:28-50 | the number of accepted requests in a batch is at most its length, and equals it iff no request of the batch is rejected |
| PointRuns.RunHistoryLength | src/main/java/io/hhplus/tdd/point/PointService.java:28-50 | after any batch the log has grown by exactly the number of accepted requests; rejected requests append nothing |
| PointRuns.RunPreservesValid | src/main/java/io/hhplus/tdd/point/PointService.java:28-50 | any batch with non-negative amounts keeps every balance within [0, 1,000,000], whichever requests are rejected |
| PointRuns.RunLeavesOthersAlone | src/main/java/io/hhplus/tdd/point/PointService.java:34-36 | requests for other users leave a user's balance and history exactly as they were |
| PointRuns.RequestsFor | src/test/java/io/hhplus/tdd/ConcurrencyTest.java:211-230 | the requests of one user picked out of an interleaved batch: exactly the batch's requests for that user, all for that user |
| PointRuns.RunProjects | src/test/java/io/hhplus/tdd/ConcurrencyTest.java:190-243 | serially, what a batch does to one user's balance and history is what that user's own requests alone do from the same starting view, however other users' requests are interleaved |
| PointRuns.EachUserKeepsBalance | src/test/java/io/hhplus/tdd/ConcurrencyTest.java:190-243 | in any serial order of an interleaved batch, a user at balance 1,000 whose own requests are ten charge(10) and ten use(10) ends at 1,000, whatever the other users send |
| PointRuns.SingleUserRunNetEffect | src/test/java/io/hhplus/tdd/ConcurrencyTest.java:146-188 | for one user's batch in any order: if the balance covers the total used and stays under the cap after the total charged, no request is rejected and the final balance is balance + charged - used |
| PointRuns.SingleUserRunHistory | src/main/java/io/hhplus/tdd/point/PointService.java:36-49 | when all of one user's batch is accepted, that user's history gains exactly the batch's lines, in order |
| PointRuns.UniformTotals | src/test/java/io/hhplus/tdd/ConcurrencyTest.java:160-176 | in a batch of equal amounts, the charged and used totals are the counts of charges and uses times the amount |
| PointRuns.FiftyChargesFiftyUses | src/test/java/io/hhplus/tdd/ConcurrencyTest.java:146-188 | after charge(1,000) on an empty ledger, any order of 50 charge(10) and 50 use(10) is accepted in full, ends at balance 1,000, and leaves 101 history lines |
| LongOverflow.WrapLong | src/main/java/io/hhplus/tdd/point/PointService.java:30 | the result is a 64-bit long congruent to the input modulo 2^64, and equals the input when the input is already a long |
| LongOverflow.ChargePointAsWritten | src/main/java/io/hhplus/tdd/point/PointService.java:28-39 | chargePoint with a wrapping long sum: rejected iff the wrapped sum exceeds the cap; on success the wrapped sum is stored and returned |
| LongOverflow.UsePointAsWritten | src/main/java/io/hhplus/tdd/point/PointService.java:41-51 | usePoint with a wrapping long difference: rejected iff balance < amount; on success the wrapped difference is stored and returned |
| LongOverflow.ChargeOverflowPassesCap | src/main/java/io/hhplus/tdd/point/PointService.java:30-34 | a user with balance 1 who charges Long.MAX_VALUE passes the cap check and is left at Long.MIN_VALUE |
| LongOverflow.ChargePointReordered | src/main/java/io/hhplus/tdd/point/PointService.java:28-39 | chargePoint with the cap check rearranged as amount > 1,000,000 - balance, in 64-bit arithmetic: rejected iff that comparison holds; on success the wrapped sum is stored and returned |
| LongOverflow.ReorderedCheckIsExact | src/main/java/io/hhplus/tdd/point/PointService.java:30-34 | on a valid ledger and for every long amount, the rearranged 64-bit check behaves exactly like the unbounded chargePoint, so it never lets a wrapped sum past the cap |
| LongOverflow.AgreesWithoutOverflow | src/main/java/io/hhplus/tdd/point/PointService.java:28-51 | whenever the true sum or difference fits in a long, the as-written operation equals the unbounded one |

## Left out

- Concurrency is not modelled: thread pools, latches, and interleaving inside one call. `PointService` takes no lock, so the read at line 29 (or 42) and the write at line 34 (or 48) of one call are not atomic. Two calls for one user can read the same balance, and one update is then lost; that execution matches no serial order. The `PointRuns` lemmas cover serial executions only. The unlocked code therefore does not guarantee the assertions at `ConcurrencyTest.java` lines 64, 143, 187 and 241. What the model proves is that every serial order of those batches meets them.
- The HTTP controller and the mapping of exceptions to error responses are transport plumbing. The exceptions' message strings become the two `PointError` variants.
- The internals of `UserPointTable` and `PointHistoryTable` are not part of this model. Only the behaviour the service and the tests rely on is modelled: an unknown id reads as 0, a write replaces, and `selectAllByUserId` filters by user in append order.
- The table-assigned history line id is not modelled, because its generation is internal to the history table.
- `UserPoint.updateMillis` is not modelled, because the table sets it from its own clock. The transaction date passed by the caller is kept as an opaque integer.
- No error for a zero or negative amount is modelled, because `PointService` never checks the sign of the amount. Properties that need a non-negative amount require it.
- PointService.ChargePoint: does not model the 64-bit wrap-around of `point + amount`, because it states the behaviour the cap check intends. `LongOverflow.ChargePointAsWritten` models the wrap-around.
- PointService.UsePoint: does not model the 64-bit wrap-around of `point - amount`, for the same reason. `LongOverflow.UsePointAsWritten` models it. That wrap-around needs a negative amount, such as Long.MIN_VALUE, and a negative amount already breaks the range without any overflow (`PointService.NegativeAmountsLeaveRange`). For that reason it is not listed as a separate finding.
- User ids and amounts are `long` in the source and unbounded integers here. Only the sum at lines 30 and 34 and the difference at line 48 of `PointService.java` can overflow, and `LongOverflow` covers them.

## Findings

| source | as written | input that shows it | evidently intended | confidence | as-written member | corrected member |
|---|---|---|---|---|---|---|
| src/main/java/io/hhplus/tdd/point/PointService.java:30-34 | the cap check and the write use `userPoint.point() + amount` in 64-bit `long`, which wraps | balance 1, `chargePoint(id, Long.MAX_VALUE, t)`: the sum wraps to Long.MIN_VALUE, passes the check, and is stored | reject any charge whose true sum exceeds 1,000,000, so balances stay within [0, 1,000,000] (proved for the corrected member by `PointService.ChargePreservesValid`; `LongOverflow.ReorderedCheckIsExact` shows that the check written as `amount > maxBalnce - point` achieves it in 64-bit arithmetic) | not executed | LongOverflow.ChargeOverflowPassesCap | PointService.ChargePoint |
