/**
 The history table, as the service uses it: an append-only log of
 transactions across all users, read back one user at a time in the order the
 lines were appended.
 */
module PointHistoryTable {
  import opened Points

  /** Every line ever appended, oldest first. */
  type History = seq<PointHistory>

  /** The lines of `h` that belong to `userId`, oldest first; empty, not an
      error, for a user with no lines. */
  function SelectAllByUserId(h: History, userId: int): (r: History)
    ensures |r| <= |h|
    ensures forall x :: x in r <==> x in h && x.userId == userId
  {
    if h == [] then []
    else (if h[0].userId == userId then [h[0]] else []) + SelectAllByUserId(h[1..], userId)
  }

  /** Appends one line. What every user reads back afterwards is what they
      read before, followed by the new line for its owner only. */
  function Insert(h: History, userId: int, amount: int, kind: TransactionType, updateMillis: int): (h': History)
    ensures |h'| == |h| + 1
    ensures h'[..|h|] == h
    ensures SelectAllByUserId(h', userId) == SelectAllByUserId(h, userId) + [PointHistory(userId, amount, kind, updateMillis)]
    ensures forall other :: other != userId ==> SelectAllByUserId(h', other) == SelectAllByUserId(h, other)
  {
    var line := PointHistory(userId, amount, kind, updateMillis);
    SelectOfAppend(h, line);
    h + [line]
  }

  /** Reading one user's lines commutes with concatenating logs: the lines
      of each part keep their relative order. */
  lemma {:induction false} SelectOfConcat(a: History, b: History, userId: int)
    ensures SelectAllByUserId(a + b, userId) == SelectAllByUserId(a, userId) + SelectAllByUserId(b, userId)
  {
    if a == [] {
      assert a + b == b;
    } else {
      assert (a + b)[0] == a[0];
      assert (a + b)[1..] == a[1..] + b;
      SelectOfConcat(a[1..], b, userId);
    }
  }

  /** Appending one line adds it to its owner's view and to no one else's. */
  lemma SelectOfAppend(h: History, line: PointHistory)
    ensures forall userId :: SelectAllByUserId(h + [line], userId)
                          == SelectAllByUserId(h, userId) + (if line.userId == userId then [line] else [])
  {
    forall userId
      ensures SelectAllByUserId(h + [line], userId)
           == SelectAllByUserId(h, userId) + (if line.userId == userId then [line] else [])
    {
      SelectOfConcat(h, [line], userId);
      assert [line][1..] == [];
    }
  }

  /** A user owning no line reads an empty history, and only such a user. */
  lemma {:induction false} SelectEmptyIffNoLines(h: History, userId: int)
    ensures SelectAllByUserId(h, userId) == [] <==> forall i :: 0 <= i < |h| ==> h[i].userId != userId
  {
    if h != [] {
      SelectEmptyIffNoLines(h[1..], userId);
      assert forall i :: 0 < i < |h| ==> h[i] == h[1..][i - 1];
    }
  }

  /** A log written by one user only is read back whole and in order by that
      user. */
  lemma {:induction false} SelectOfSingleOwner(h: History, userId: int)
    requires forall i :: 0 <= i < |h| ==> h[i].userId == userId
    ensures SelectAllByUserId(h, userId) == h
  {
    if h != [] {
      SelectOfSingleOwner(h[1..], userId);
    }
  }
}
