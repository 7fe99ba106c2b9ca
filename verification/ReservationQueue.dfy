/** The first-come queue of a book's pending reservations. */
module ReservationQueue {
  import opened Wrappers
  import opened FiniteSets
  import opened Library

  function PendingFor(s: Shelves, bookId: string): set<string> {
    set r | r in s.reservations && s.reservations[r].bookId == bookId && s.reservations[r].status == Pending
  }

  function Earlier(s: Shelves, bookId: string, time: int): set<string> {
    set r | r in s.reservations && s.reservations[r].bookId == bookId && s.reservations[r].status == Pending
            && s.reservations[r].createdAt < time
  }

  /** One more than the pending reservations made earlier for the same book; a reservation that is no longer pending has position 0. */
  function QueuePosition(s: Shelves, id: string): nat
    requires id in s.reservations
  {
    if s.reservations[id].status != Pending then 0
    else |Earlier(s, s.reservations[id].bookId, s.reservations[id].createdAt)| + 1
  }

  lemma NoneEarlier(s: Shelves, bookId: string, first: string)
    requires first in PendingFor(s, bookId)
    requires forall r | r in PendingFor(s, bookId) :: s.reservations[first].createdAt <= s.reservations[r].createdAt
    ensures Earlier(s, bookId, s.reservations[first].createdAt) == {}
  {
    assert Earlier(s, bookId, s.reservations[first].createdAt) <= PendingFor(s, bookId);
  }

  /** The pending reservation created first, if there is one. */
  method FindNextReservation(s: Shelves, bookId: string) returns (next: Option<string>)
    ensures next.None? ==> PendingFor(s, bookId) == {}
    ensures next.Some? ==> next.value in PendingFor(s, bookId) && QueuePosition(s, next.value) == 1
  {
    var left := PendingFor(s, bookId);
    next := None;
    while left != {}
      invariant left <= PendingFor(s, bookId)
      invariant next.None? ==> left == PendingFor(s, bookId)
      invariant next.Some? ==>
                  next.value in PendingFor(s, bookId)
                  && forall r | r in PendingFor(s, bookId) - left :: s.reservations[next.value].createdAt <= s.reservations[r].createdAt
      decreases left
    {
      var r :| r in left;
      if next.None? || s.reservations[r].createdAt < s.reservations[next.value].createdAt {
        next := Some(r);
      }
      left := left - {r};
    }
    if next.Some? {
      assert PendingFor(s, bookId) - left == PendingFor(s, bookId);
      NoneEarlier(s, bookId, next.value);
    }
  }

  /** No two pending reservations of the book were created at the same instant. */
  ghost predicate DistinctTimes(s: Shelves, bookId: string) {
    forall a, b | a in PendingFor(s, bookId) && b in PendingFor(s, bookId) && a != b ::
      s.reservations[a].createdAt != s.reservations[b].createdAt
  }

  lemma EarlierGrows(s: Shelves, a: string, b: string, bookId: string)
    requires a in PendingFor(s, bookId) && b in PendingFor(s, bookId)
    ensures s.reservations[a].createdAt < s.reservations[b].createdAt ==> QueuePosition(s, a) < QueuePosition(s, b)
    ensures s.reservations[a].createdAt == s.reservations[b].createdAt ==> QueuePosition(s, a) == QueuePosition(s, b)
  {
    var ea := Earlier(s, bookId, s.reservations[a].createdAt);
    var eb := Earlier(s, bookId, s.reservations[b].createdAt);
    if s.reservations[a].createdAt < s.reservations[b].createdAt {
      assert ea + {a} <= eb && a !in ea;
      SubsetSize(ea + {a}, eb);
    }
  }

  /** Positions follow creation order, and are distinct exactly when the creation times are. */
  lemma PositionsFollowTime(s: Shelves, bookId: string, a: string, b: string)
    requires a in PendingFor(s, bookId) && b in PendingFor(s, bookId)
    ensures QueuePosition(s, a) < QueuePosition(s, b) <==> s.reservations[a].createdAt < s.reservations[b].createdAt
  {
    EarlierGrows(s, a, b, bookId);
    EarlierGrows(s, b, a, bookId);
  }

  lemma PositionInRange(s: Shelves, bookId: string, a: string)
    requires a in PendingFor(s, bookId)
    ensures 1 <= QueuePosition(s, a) <= |PendingFor(s, bookId)|
  {
    var earlier := Earlier(s, bookId, s.reservations[a].createdAt);
    assert earlier <= PendingFor(s, bookId) - {a};
    SubsetSize(earlier, PendingFor(s, bookId) - {a});
  }

  ghost predicate HolderOf(s: Shelves, bookId: string, p: int, a: string) {
    && a in PendingFor(s, bookId) && QueuePosition(s, a) == p
    && forall b | b in PendingFor(s, bookId) && QueuePosition(s, b) == p :: b == a
  }

  ghost predicate HeldByOne(s: Shelves, bookId: string, p: int) { exists a :: HolderOf(s, bookId, p, a) }

  /** The queue positions of a book's pending reservations are 1 to n, each held by exactly one, just when their times differ. */
  lemma PositionsAreABijection(s: Shelves, bookId: string)
    ensures var n := |PendingFor(s, bookId)|;
            (forall p: int | 1 <= p <= n :: HeldByOne(s, bookId, p)) <==> DistinctTimes(s, bookId)
  {
    var pending := PendingFor(s, bookId);
    var n := |pending|;
    ghost var position := r => if r in s.reservations then QueuePosition(s, r) as int else 0;
    if DistinctTimes(s, bookId) {
      forall a, b | a in pending && b in pending && position(a) == position(b) ensures a == b {
        PositionsFollowTime(s, bookId, a, b);
        PositionsFollowTime(s, bookId, b, a);
      }
      ImageSize(pending, position);
      RangeSize(n);
      forall a | a in pending ensures position(a) in Range(n) { PositionInRange(s, bookId, a); }
      SubsetSize(Image(pending, position), Range(n));
      forall p: int | 1 <= p <= n ensures HeldByOne(s, bookId, p) {
        assert p in Image(pending, position);
        var a :| a in pending && position(a) == p;
        assert HolderOf(s, bookId, p, a);
      }
    } else {
      var a, b :| a in pending && b in pending && a != b && s.reservations[a].createdAt == s.reservations[b].createdAt;
      EarlierGrows(s, a, b, bookId);
      PositionInRange(s, bookId, a);
      assert !HeldByOne(s, bookId, QueuePosition(s, a));
    }
  }

  /** The reservation `id` has left the queue and every other reservation is as it was. */
  predicate LeftQueue(s: Shelves, t: Shelves, id: string) {
    && id in s.reservations && s.reservations[id].status == Pending
    && t.reservations.Keys == s.reservations.Keys && t.reservations[id].status != Pending
    && forall r | r in s.reservations && r != id :: t.reservations[r] == s.reservations[r]
  }

  /** Cancelling or fulfilling is leaving the queue. */
  lemma CancelAndFulfillLeave(s: Shelves, id: string, loanId: string, copyId: string, today: int)
    ensures CancelStep(s, id).error == None ==> LeftQueue(s, CancelStep(s, id).state, id)
    ensures FulfillStep(s, id, loanId, copyId, today).error == None ==>
              LeftQueue(s, FulfillStep(s, id, loanId, copyId, today).state, id)
  {
    hide IssueStep;
  }

  lemma EarlierAfterLeaving(s: Shelves, t: Shelves, id: string, bookId: string, time: int)
    requires LeftQueue(s, t, id)
    ensures Earlier(t, bookId, time)
            == if bookId == s.reservations[id].bookId && s.reservations[id].createdAt < time
               then Earlier(s, bookId, time) - {id} else Earlier(s, bookId, time)
  {
  }

  /** When position k leaves, exactly the later positions of that book move up by one. */
  lemma LeavingMovesLaterUp(s: Shelves, t: Shelves, id: string, r: string)
    requires LeftQueue(s, t, id) && r in s.reservations && r != id
    ensures QueuePosition(t, r)
            == if s.reservations[r].bookId == s.reservations[id].bookId && QueuePosition(s, r) > QueuePosition(s, id)
               then QueuePosition(s, r) - 1 else QueuePosition(s, r)
  {
    var bookId := s.reservations[r].bookId;
    if s.reservations[r].status == Pending {
      EarlierAfterLeaving(s, t, id, bookId, s.reservations[r].createdAt);
      if bookId == s.reservations[id].bookId { PositionsFollowTime(s, bookId, id, r); }
    }
  }

  /** A reservation made after all pending ones of its book joins the queue at the end and moves nobody. */
  lemma NewcomerIsLast(s: Shelves, id: string, memberId: string, bookId: string, now: int, r: string)
    requires ReserveStep(s, id, memberId, bookId, now).error == None
    requires forall p | p in PendingFor(s, bookId) :: s.reservations[p].createdAt < now
    requires r in s.reservations
    ensures var t := ReserveStep(s, id, memberId, bookId, now).state;
            && QueuePosition(t, id) == |PendingFor(s, bookId)| + 1
            && QueuePosition(t, r) == QueuePosition(s, r)
  {
    var t := ReserveStep(s, id, memberId, bookId, now).state;
    assert Earlier(t, bookId, now) == PendingFor(s, bookId);
    var b, time := s.reservations[r].bookId, s.reservations[r].createdAt;
    if s.reservations[r].status == Pending {
      assert r in PendingFor(s, b);
      assert Earlier(t, b, time) == Earlier(s, b, time);
    }
  }

  /** A reservation joins its book's queue and no other. */
  lemma ReserveEffect(s: Shelves, id: string, memberId: string, bookId: string, now: int)
    requires ReserveStep(s, id, memberId, bookId, now).error == None
    ensures var t := ReserveStep(s, id, memberId, bookId, now).state;
            && PendingFor(t, bookId) == PendingFor(s, bookId) + {id} && id !in PendingFor(s, bookId)
            && (forall b | b != bookId :: PendingFor(t, b) == PendingFor(s, b))
            && ((forall p | p in PendingFor(s, bookId) :: s.reservations[p].createdAt < now) ==>
                  QueuePosition(t, id) == |PendingFor(s, bookId)| + 1)
  {
    var t := ReserveStep(s, id, memberId, bookId, now).state;
    forall b | b != bookId ensures PendingFor(t, b) == PendingFor(s, b) {
    }
    if forall p | p in PendingFor(s, bookId) :: s.reservations[p].createdAt < now {
      assert Earlier(t, bookId, now) == PendingFor(s, bookId);
    }
  }

  /** The queue without `id`: the later reservations of its book one place up, all others where they were. */
  ghost predicate MovedUp(s: Shelves, t: Shelves, id: string) {
    && id in s.reservations && s.reservations.Keys == t.reservations.Keys && QueuePosition(t, id) == 0
    && forall r | r in s.reservations && r != id ::
         QueuePosition(t, r)
         == if s.reservations[r].bookId == s.reservations[id].bookId && QueuePosition(s, r) > QueuePosition(s, id)
            then QueuePosition(s, r) - 1 else QueuePosition(s, r)
  }

  lemma LeaverHasNone(s: Shelves, t: Shelves, id: string)
    requires LeftQueue(s, t, id)
    ensures QueuePosition(t, id) == 0
  {
  }

  lemma LeavingMovesUp(s: Shelves, t: Shelves, id: string)
    requires LeftQueue(s, t, id)
    ensures MovedUp(s, t, id)
  {
    hide QueuePosition;
    forall r | r in s.reservations && r != id
      ensures QueuePosition(t, r)
              == if s.reservations[r].bookId == s.reservations[id].bookId && QueuePosition(s, r) > QueuePosition(s, id)
                 then QueuePosition(s, r) - 1 else QueuePosition(s, r)
    {
      LeavingMovesLaterUp(s, t, id, r);
    }
    LeaverHasNone(s, t, id);
  }

  /** The reserver has the copy, within its limit, and the queue behind moves up. */
  lemma FulfillEffect(s: Shelves, id: string, loanId: string, copyId: string, today: int)
    requires Inv(s) && FulfillStep(s, id, loanId, copyId, today).error == None
    ensures var t := FulfillStep(s, id, loanId, copyId, today).state;
            MovedUp(s, t, id) && Lent(s, t, loanId, copyId, s.reservations[id].memberId)
  {
    CancelAndFulfillLeave(s, id, loanId, copyId, today);
    LeavingMovesUp(s, FulfillStep(s, id, loanId, copyId, today).state, id);
    IssueEffect(s, loanId, copyId, s.reservations[id].memberId, today);
    hide Inv, MovedUp, OpenLoansOn, OpenLoansOf, IssueStep;
  }

  // --- A tie.

  function TiedRun(): seq<Command> {
    [CreateBook("b"), CreateMember("m", Member(StudentMember, "p", 3, 14, true), true),
     CreateMember("n", Member(StudentMember, "q", 3, 14, true), true), Reserve("x", "m", "b", 0), Reserve("y", "n", "b", 0)]
  }

  function TiedShelves(): Shelves {
    Shelves({"b"}, map[], map["m" := Member(StudentMember, "p", 3, 14, true), "n" := Member(StudentMember, "q", 3, 14, true)], map[],
            map["x" := Reservation("b", "m", 0, Pending), "y" := Reservation("b", "n", 0, Pending)])
  }

  function Tied(members: map<string, Member>, reservations: map<string, Reservation>): Shelves {
    Shelves({"b"}, map[], members, map[], reservations)
  }

  lemma TiedMembers()
    ensures var m, n := Member(StudentMember, "p", 3, 14, true), Member(StudentMember, "q", 3, 14, true);
            && Step(Shelves({}, map[], map[], map[], map[]), CreateBook("b")) == Tied(map[], map[])
            && Step(Tied(map[], map[]), CreateMember("m", m, true)) == Tied(map["m" := m], map[])
            && Step(Tied(map["m" := m], map[]), CreateMember("n", n, true)) == Tied(map["m" := m, "n" := n], map[])
  {
  }

  lemma TiedReserves(members: map<string, Member>)
    requires "m" in members && "n" in members
    ensures var x, y := Reservation("b", "m", 0, Pending), Reservation("b", "n", 0, Pending);
            && Step(Tied(members, map[]), Reserve("x", "m", "b", 0)) == Tied(members, map["x" := x])
            && Step(Tied(members, map["x" := x]), Reserve("y", "n", "b", 0)) == Tied(members, map["x" := x, "y" := y])
  {
  }

  lemma RunPrefix(cs: seq<Command>, n: nat)
    requires n < |cs|
    ensures Run(cs[..n + 1]) == Step(Run(cs[..n]), cs[n])
  {
    RunNext(cs[..n], cs[n]);
    assert cs[..n] + [cs[n]] == cs[..n + 1];
  }

  lemma TiedRunEnds()
    ensures Run(TiedRun()) == TiedShelves()
  {
    var cs := TiedRun();
    TiedMembers();
    TiedReserves(TiedShelves().members);
    hide Step;
    assert Run(cs[..0]) == Shelves({}, map[], map[], map[], map[]);
    RunPrefix(cs, 0);
    RunPrefix(cs, 1);
    RunPrefix(cs, 2);
    RunPrefix(cs, 3);
    RunPrefix(cs, 4);
    assert cs[..5] == cs;
  }

  /** Two members who reserve a book at the same instant are both first, and nobody is second. */
  lemma TiedReservations()
    ensures var s := Run(TiedRun());
            && "x" in PendingFor(s, "b") && "y" in PendingFor(s, "b")
            && QueuePosition(s, "x") == 1 && QueuePosition(s, "y") == 1 && !HeldByOne(s, "b", 1)
  {
    TiedRunEnds();
    var s := TiedShelves();
    assert Earlier(s, "b", 0) == {};
  }
}
