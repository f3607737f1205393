/**
 Sequences of requests against the service, each request running to
 completion before the next one starts. These are the serial executions of a
 batch: the lemmas hold for every order of the requests, but say nothing about
 executions in which two requests for one user overlap. The service takes no
 lock, so such overlaps can happen, and one of them can lose an update.
 */
module PointRuns {
  import opened Points
  import opened PointService
  import PointHistoryTable

  /** One mutating request, with its caller-supplied time. */
  datatype Request =
    | ChargeRequest(id: int, amount: int, date: int)
    | UseRequest(id: int, amount: int, date: int)

  /** The service's answer to one request. */
  function Send(l: Ledger, q: Request): Outcome
  {
    match q
    case ChargeRequest(id, amount, date) => ChargePoint(l, id, amount, date)
    case UseRequest(id, amount, date) => UsePoint(l, id, amount, date)
  }

  /** The ledger after one request: the new one if it was accepted, the old
      one unchanged if it was rejected. A request is rejected exactly when the
      ledger does not change. */
  function Apply(l: Ledger, q: Request): (l': Ledger)
    ensures Send(l, q).Failure? <==> l' == l
    ensures |l'.histories| == |l.histories| + (if Send(l, q).Success? then 1 else 0)
  {
    match Send(l, q)
    case Success(next, _) => next
    case Failure(_) => l
  }

  /** The history line an accepted request appends. */
  function LineOf(q: Request): PointHistory
  {
    match q
    case ChargeRequest(id, amount, date) => PointHistory(id, amount, Charge, date)
    case UseRequest(id, amount, date) => PointHistory(id, amount, Use, date)
  }

  /** The history lines a batch appends when every request is accepted. */
  function LinesOf(qs: seq<Request>): (r: seq<PointHistory>)
    ensures |r| == |qs|
    ensures forall i :: 0 <= i < |qs| ==> r[i] == LineOf(qs[i])
  {
    if qs == [] then [] else [LineOf(qs[0])] + LinesOf(qs[1..])
  }

  /** What one request does to its own user: accepted exactly when the
      service's guard lets it through, and then the balance moves by its
      amount and the user's history gains its line. */
  lemma SendToOwner(l: Ledger, q: Request)
    ensures Send(l, q).Success? <==>
      if q.ChargeRequest? then GetId(l, q.id).point + q.amount <= MaxBalance
      else GetId(l, q.id).point >= q.amount
    ensures Send(l, q).Success? ==>
      && GetId(Apply(l, q), q.id).point
         == GetId(l, q.id).point + (if q.ChargeRequest? then q.amount else -q.amount)
      && GetPointHistory(Apply(l, q), q.id) == GetPointHistory(l, q.id) + [LineOf(q)]
  {
  }

  /** The ledger after the requests of `qs`, in order. */
  function Run(l: Ledger, qs: seq<Request>): Ledger
    decreases qs
  {
    if qs == [] then l else Run(Apply(l, qs[0]), qs[1..])
  }

  /** No request of `qs`, sent in order from `l`, is rejected. */
  predicate AllAccepted(l: Ledger, qs: seq<Request>)
    decreases qs
  {
    qs == [] || (Send(l, qs[0]).Success? && AllAccepted(Apply(l, qs[0]), qs[1..]))
  }

  function ChargeCount(qs: seq<Request>): (n: nat)
    ensures n <= |qs|
  {
    if qs == [] then 0 else (if qs[0].ChargeRequest? then 1 else 0) + ChargeCount(qs[1..])
  }

  function UseCount(qs: seq<Request>): (n: nat)
    ensures n + ChargeCount(qs) == |qs|
  {
    if qs == [] then 0 else (if qs[0].UseRequest? then 1 else 0) + UseCount(qs[1..])
  }

  /** Every request in `qs` carries a non-negative amount. */
  predicate NonNegative(qs: seq<Request>)
  {
    forall i :: 0 <= i < |qs| ==> qs[i].amount >= 0
  }

  /** Every request in `qs` concerns user `id`. */
  predicate ForUser(qs: seq<Request>, id: int)
  {
    forall i :: 0 <= i < |qs| ==> qs[i].id == id
  }

  /** Every request in `qs` concerns user `id` and moves `amount` points. */
  predicate Uniform(qs: seq<Request>, id: int, amount: int)
  {
    forall i :: 0 <= i < |qs| ==> qs[i].id == id && qs[i].amount == amount
  }

  /** The points the charges of `qs` ask to add. */
  function ChargedTotal(qs: seq<Request>): (n: int)
    ensures NonNegative(qs) ==> n >= 0
  {
    if qs == [] then 0
    else (if qs[0].ChargeRequest? then qs[0].amount else 0) + ChargedTotal(qs[1..])
  }

  /** The points the uses of `qs` ask to take. */
  function UsedTotal(qs: seq<Request>): (n: int)
    ensures NonNegative(qs) ==> n >= 0
  {
    if qs == [] then 0
    else (if qs[0].UseRequest? then qs[0].amount else 0) + UsedTotal(qs[1..])
  }

  /** Running a concatenation is running one part after the other. */
  lemma {:induction false} RunOfConcat(l: Ledger, a: seq<Request>, b: seq<Request>)
    ensures Run(l, a + b) == Run(Run(l, a), b)
    ensures AllAccepted(l, a + b) <==> AllAccepted(l, a) && AllAccepted(Run(l, a), b)
    decreases a
  {
    if a == [] {
      assert a + b == b;
    } else {
      assert (a + b)[0] == a[0];
      assert (a + b)[1..] == a[1..] + b;
      RunOfConcat(Apply(l, a[0]), a[1..], b);
    }
  }

  /** A batch with every request accepted appends exactly its own lines to
      the log, in the order the requests were sent. */
  lemma {:induction false} AcceptedRunAppendsLines(l: Ledger, qs: seq<Request>)
    requires AllAccepted(l, qs)
    ensures Run(l, qs).histories == l.histories + LinesOf(qs)
    decreases qs
  {
    if qs != [] {
      var next := Apply(l, qs[0]);
      assert next.histories == l.histories + [LineOf(qs[0])];
      AcceptedRunAppendsLines(next, qs[1..]);
    }
  }

  /** How many requests of `qs`, sent in order from `l`, are accepted. */
  function AcceptedCount(l: Ledger, qs: seq<Request>): (n: nat)
    ensures n <= |qs|
    ensures n == |qs| <==> AllAccepted(l, qs)
    decreases qs
  {
    if qs == [] then 0
    else (if Send(l, qs[0]).Success? then 1 else 0) + AcceptedCount(Apply(l, qs[0]), qs[1..])
  }

  /** Whatever is rejected, the log grows by exactly one line per accepted
      request: rejected requests leave no trace. */
  lemma {:induction false} RunHistoryLength(l: Ledger, qs: seq<Request>)
    ensures |Run(l, qs).histories| == |l.histories| + AcceptedCount(l, qs)
    decreases qs
  {
    if qs != [] {
      RunHistoryLength(Apply(l, qs[0]), qs[1..]);
    }
  }

  /** Requests that all carry non-negative amounts keep every balance between
      zero and the cap, whichever of them are rejected. */
  lemma {:induction false} RunPreservesValid(l: Ledger, qs: seq<Request>)
    requires Valid(l)
    requires NonNegative(qs)
    ensures Valid(Run(l, qs))
    decreases qs
  {
    if qs != [] {
      var q := qs[0];
      if q.ChargeRequest? {
        ChargePreservesValid(l, q.id, q.amount, q.date);
      } else {
        UsePreservesValid(l, q.id, q.amount, q.date);
      }
      RunPreservesValid(Apply(l, qs[0]), qs[1..]);
    }
  }

  /** Requests for other users leave the balance and the history of `id`
      exactly as they were. */
  lemma {:induction false} RunLeavesOthersAlone(l: Ledger, qs: seq<Request>, id: int)
    requires forall i :: 0 <= i < |qs| ==> qs[i].id != id
    ensures GetId(Run(l, qs), id) == GetId(l, id)
    ensures GetPointHistory(Run(l, qs), id) == GetPointHistory(l, id)
    decreases qs
  {
    if qs != [] {
      RunLeavesOthersAlone(Apply(l, qs[0]), qs[1..], id);
    }
  }

  /** The requests of `qs` that concern user `id`, in their original order. */
  function RequestsFor(qs: seq<Request>, id: int): (r: seq<Request>)
    ensures |r| <= |qs|
    ensures ForUser(r, id)
    ensures forall q :: q in r <==> q in qs && q.id == id
  {
    if qs == [] then []
    else (if qs[0].id == id then [qs[0]] else []) + RequestsFor(qs[1..], id)
  }

  /** Two ledgers a reader cannot tell apart when looking at user `id`. */
  predicate SameView(l1: Ledger, l2: Ledger, id: int)
  {
    GetId(l1, id) == GetId(l2, id) && GetPointHistory(l1, id) == GetPointHistory(l2, id)
  }

  /** What a batch does to user `id` depends only on that user's view of the
      starting ledger and on that user's own requests: the other users'
      requests, wherever they are interleaved, make no difference. */
  lemma {:induction false} RunProjects(l1: Ledger, l2: Ledger, qs: seq<Request>, id: int)
    requires SameView(l1, l2, id)
    ensures SameView(Run(l1, qs), Run(l2, RequestsFor(qs, id)), id)
    decreases qs
  {
    if qs != [] {
      var q, rest := qs[0], qs[1..];
      if q.id == id {
        assert RequestsFor(qs, id) == [q] + RequestsFor(rest, id);
        SendToOwner(l1, q);
        SendToOwner(l2, q);
        assert SameView(Apply(l1, q), Apply(l2, q), id);
        RunProjects(Apply(l1, q), Apply(l2, q), rest, id);
      } else {
        assert RequestsFor(qs, id) == RequestsFor(rest, id);
        assert SameView(Apply(l1, q), l1, id);
        RunProjects(Apply(l1, q), l2, rest, id);
      }
    }
  }

  /** The net effect of a batch of requests for one user, in any order: if
      the balance covers all the uses together and stays under the cap after
      all the charges together, no request is rejected and the balance moves
      by the charged total less the used total. */
  lemma {:induction false} SingleUserRunNetEffect(l: Ledger, qs: seq<Request>, id: int)
    requires ForUser(qs, id) && NonNegative(qs)
    requires GetId(l, id).point >= UsedTotal(qs)
    requires GetId(l, id).point + ChargedTotal(qs) <= MaxBalance
    ensures AllAccepted(l, qs)
    ensures GetId(Run(l, qs), id).point == GetId(l, id).point + ChargedTotal(qs) - UsedTotal(qs)
    decreases qs
  {
    if qs != [] {
      var rest := qs[1..];
      assert ForUser(rest, id) && NonNegative(rest) by {
        forall i | 0 <= i < |rest| ensures rest[i].id == id && rest[i].amount >= 0 {
          assert rest[i] == qs[i + 1];
        }
      }
      assert qs[0].id == id && qs[0].amount >= 0;
      SendToOwner(l, qs[0]);
      SingleUserRunNetEffect(Apply(l, qs[0]), rest, id);
    }
  }

  /** When every request of a one-user batch is accepted, that user's
      history gains exactly the batch's lines, in the order sent. */
  lemma SingleUserRunHistory(l: Ledger, qs: seq<Request>, id: int)
    requires ForUser(qs, id) && AllAccepted(l, qs)
    ensures GetPointHistory(Run(l, qs), id) == GetPointHistory(l, id) + LinesOf(qs)
  {
    AcceptedRunAppendsLines(l, qs);
    PointHistoryTable.SelectOfConcat(l.histories, LinesOf(qs), id);
    PointHistoryTable.SelectOfSingleOwner(LinesOf(qs), id);
  }

  /** In a batch of equal amounts, the totals are the counts times the
      amount. */
  lemma {:induction false} UniformTotals(qs: seq<Request>, id: int, amount: int)
    requires Uniform(qs, id, amount)
    ensures ForUser(qs, id)
    ensures amount >= 0 ==> NonNegative(qs)
    ensures ChargedTotal(qs) == ChargeCount(qs) * amount
    ensures UsedTotal(qs) == UseCount(qs) * amount
    decreases qs
  {
    if qs != [] {
      var rest := qs[1..];
      assert Uniform(rest, id, amount) by {
        forall i | 0 <= i < |rest| ensures rest[i].id == id && rest[i].amount == amount {
          assert rest[i] == qs[i + 1];
        }
      }
      UniformTotals(rest, id, amount);
      assert qs[0].amount == amount;
      if qs[0].ChargeRequest? {
        assert ChargeCount(qs) == ChargeCount(rest) + 1;
        assert ChargedTotal(qs) == ChargedTotal(rest) + amount;
        MulSucc(ChargeCount(rest), amount);
      } else {
        assert UseCount(qs) == UseCount(rest) + 1;
        assert UsedTotal(qs) == UsedTotal(rest) + amount;
        MulSucc(UseCount(rest), amount);
      }
    }
  }

  lemma MulSucc(n: int, amount: int)
    ensures (n + 1) * amount == n * amount + amount
  {
  }

  /** The sequential reading of the concurrency tests: user 1 charges 1,000
      into an empty ledger, then fifty charges of 10 and fifty uses of 10
      arrive in any order. None is rejected, the balance ends at 1,000, and
      the user's history holds the 101 lines. */
  lemma FiftyChargesFiftyUses(firstDate: int, qs: seq<Request>)
    requires |qs| == 100 && ChargeCount(qs) == 50
    requires Uniform(qs, 1, 10)
    ensures var start := [ChargeRequest(1, 1_000, firstDate)];
            && AllAccepted(EmptyLedger(), start + qs)
            && GetId(Run(EmptyLedger(), start + qs), 1).point == 1_000
            && |GetPointHistory(Run(EmptyLedger(), start + qs), 1)| == 101
  {
    var start := [ChargeRequest(1, 1_000, firstDate)];
    var l := Apply(EmptyLedger(), start[0]);
    assert Run(EmptyLedger(), start) == l;
    assert AllAccepted(EmptyLedger(), start) by {
      assert AllAccepted(l, start[1..]);
    }
    assert GetId(l, 1).point == 1_000;
    assert |GetPointHistory(l, 1)| == 1;
    UniformTotals(qs, 1, 10);
    SingleUserRunNetEffect(l, qs, 1);
    SingleUserRunHistory(l, qs, 1);
    RunOfConcat(EmptyLedger(), start, qs);
  }

  /** The sequential reading of the multi-user concurrency test: whatever the
      other users send, and however their requests are interleaved with
      these, a user at balance 1,000 whose own requests are ten charges of 10
      and ten uses of 10 ends at balance 1,000. */
  lemma EachUserKeepsBalance(l: Ledger, qs: seq<Request>, id: int)
    requires GetId(l, id).point == 1_000
    requires |RequestsFor(qs, id)| == 20 && ChargeCount(RequestsFor(qs, id)) == 10
    requires forall i :: 0 <= i < |qs| && qs[i].id == id ==> qs[i].amount == 10
    ensures GetId(Run(l, qs), id).point == 1_000
  {
    var own := RequestsFor(qs, id);
    assert Uniform(own, id, 10) by {
      forall i | 0 <= i < |own| ensures own[i].id == id && own[i].amount == 10 {
        assert own[i] in qs;
      }
    }
    UniformTotals(own, id, 10);
    SingleUserRunNetEffect(l, own, id);
    RunProjects(l, l, qs, id);
  }
}
