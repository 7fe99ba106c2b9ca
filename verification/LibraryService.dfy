/** The library services as they run against the tables. */
module LibraryService {
  import opened Wrappers
  import opened Library
  import opened ReservationQueue

  // --- Each operation keeps the invariant, and does what it promises or nothing.

  lemma OneElement<T>(s: set<T>, x: T)
    requires |s| == 1 && x in s
    ensures s == {x}
  {
    assert |s - {x}| == 0;
  }

  lemma UnknownBookHasNoCopies(s: Shelves, id: string)
    requires Inv(s)
    ensures id !in s.books ==> CopiesOf(s, id) == {} && CopiesOf(CreateBookStep(s, id).state, id) == {}
  {
    hide Matched, WithinLimits, DistinctBarcodes, OneMembership;
  }

  lemma IssueOutcome(s: Shelves, loanId: string, copyId: string, memberId: string, today: int)
    requires Inv(s)
    ensures var r := IssueStep(s, loanId, copyId, memberId, today);
            Inv(r.state) && if r.error.None? then Lent(s, r.state, loanId, copyId, memberId) else r.state == s
  {
    IssueKeeps(s, loanId, copyId, memberId, today);
    if IssueStep(s, loanId, copyId, memberId, today).error.None? { IssueEffect(s, loanId, copyId, memberId, today); }
    hide Inv, Lent;
  }

  /** A fine is pending exactly for lateness, when rate and cap are not negative. */
  predicate FinedFairly(s: Shelves, t: Shelves, loanId: string, today: int, rate: real, maxFine: Option<real>) {
    loanId in s.loans && loanId in t.loans && rate >= 0.0 && (maxFine.Some? ==> maxFine.value >= 0.0) ==>
      (t.loans[loanId].fineStatus == PendingFine <==> FineDue(s.loans[loanId], today, rate))
  }

  lemma ReturnOutcome(s: Shelves, loanId: string, condition: Condition, today: int, rate: real, maxFine: Option<real>)
    requires Inv(s)
    ensures var r := ReturnStep(s, loanId, condition, today, rate, maxFine);
            && Inv(r.state)
            && if r.error.None? then TakenBack(s, r.state, loanId, condition) && FinedFairly(s, r.state, loanId, today, rate, maxFine)
               else r.state == s
  {
    ReturnKeeps(s, loanId, condition, today, rate, maxFine);
    if ReturnStep(s, loanId, condition, today, rate, maxFine).error.None? {
      ReturnEffect(s, loanId, condition, today, rate, maxFine);
    }
    hide Inv, CalculateFine, OpenLoansOn, OpenLoansOf;
  }

  lemma FulfillOutcome(s: Shelves, id: string, loanId: string, copyId: string, today: int)
    requires Inv(s)
    ensures var r := FulfillStep(s, id, loanId, copyId, today);
            && Inv(r.state)
            && if r.error.None? then id in s.reservations && MovedUp(s, r.state, id)
                                     && Lent(s, r.state, loanId, copyId, s.reservations[id].memberId)
               else r.state == s
  {
    FulfillKeeps(s, id, loanId, copyId, today);
    if FulfillStep(s, id, loanId, copyId, today).error.None? { FulfillEffect(s, id, loanId, copyId, today); }
    hide Inv, MovedUp, Lent;
  }

  lemma SettleOutcome(s: Shelves, loanId: string, waive: bool)
    requires Inv(s)
    ensures var r := SettleStep(s, loanId, waive);
            && Inv(r.state)
            && (r.error.None? <==> loanId in s.loans && s.loans[loanId].fineStatus == PendingFine)
            && if r.error.None? then SettledOnce(s, r.state, loanId) else r.state == s
  {
    SettleKeeps(s, loanId, waive);
    if SettleStep(s, loanId, waive).error.None? { SettleEffect(s, loanId, waive); }
    hide Inv;
  }

  /** The book is gone and nothing refers to it; other books' queues are as they were. */
  ghost predicate BookGone(s: Shelves, t: Shelves, id: string) {
    && id !in t.books
    && (forall c | c in t.copies :: t.copies[c].bookId != id)
    && (forall r | r in t.reservations :: t.reservations[r].bookId != id)
    && (forall r | r in s.reservations && s.reservations[r].bookId != id :: r in t.reservations && t.reservations[r] == s.reservations[r])
  }

  lemma RemoveBookOutcome(s: Shelves, id: string)
    requires Inv(s)
    ensures var r := RemoveBookStep(s, id);
            Inv(r.state) && if r.error.None? then BookGone(s, r.state, id) else r.state == s
  {
    BooksKeep(s, id);
    hide Inv;
  }

  /** The member is gone with its past loans and its reservations; whatever anybody has on loan stays on loan. */
  ghost predicate MemberGone(s: Shelves, t: Shelves, id: string) {
    && id !in t.members
    && (forall l | l in t.loans :: t.loans[l].memberId != id)
    && (forall r | r in t.reservations :: t.reservations[r].memberId != id)
    && (forall l | l in s.loans && Open(s.loans[l]) :: l in t.loans && t.loans[l] == s.loans[l])
  }

  lemma RemovedHadNoLoans(s: Shelves, id: string)
    requires RemoveMemberStep(s, id).error.None?
    ensures MemberGone(s, RemoveMemberStep(s, id).state, id)
  {
    assert forall l | l in s.loans && Open(s.loans[l]) && s.loans[l].memberId == id :: l in OpenLoansOf(s.loans, id);
  }

  lemma RemoveMemberOutcome(s: Shelves, id: string)
    requires Inv(s)
    ensures var r := RemoveMemberStep(s, id);
            Inv(r.state) && if r.error.None? then MemberGone(s, r.state, id) else r.state == s
  {
    hide Inv, MemberGone, OpenLoansOf;
    RemoveMemberKeeps(s, id);
    if RemoveMemberStep(s, id).error.None? { RemovedHadNoLoans(s, id); }
  }

  class LibraryDatabase {
    var books: set<string>
    var copies: map<string, Copy>
    var members: map<string, Member>
    var loans: map<string, Loan>
    var reservations: map<string, Reservation>

    function View(): Shelves
      reads this
    {
      Shelves(books, copies, members, loans, reservations)
    }

    constructor ()
      ensures View() == Run([]) && Inv(View())
    {
      books, copies, members, loans, reservations := {}, map[], map[], map[], map[];
    }

    // --- Catalogue.

    method CreateBook(id: string) returns (error: Option<Error>)
      requires Inv(View())
      modifies this`books
      ensures Inv(View())
      ensures Outcome(View(), error) == CreateBookStep(old(View()), id)
      ensures error.None? ==> id in books && CopiesOf(View(), id) == {}
    {
      hide Inv, CopiesOf;
      BooksKeep(View(), id);
      UnknownBookHasNoCopies(View(), id);
      if id in books {
        return Some(Conflict);
      }
      books := books + {id};
      return None;
    }

    method RemoveBook(id: string) returns (error: Option<Error>)
      requires Inv(View())
      modifies this`books, this`reservations
      ensures Inv(View())
      ensures Outcome(View(), error) == RemoveBookStep(old(View()), id)
      ensures if error.None? then BookGone(old(View()), View(), id) else View() == old(View())
    {
      hide Inv, BookGone;
      RemoveBookOutcome(View(), id);
      if id !in books {
        return Some(NotFound);
      }
      if exists c | c in copies :: copies[c].bookId == id {
        return Some(Conflict);
      }
      var pending := PendingFor(View(), id);
      assert Reserved(View(), id) <==> exists r | r in reservations :: r in pending;
      if |pending| > 0 {
        assert exists r :: r in pending;
        return Some(Conflict);
      }
      books := books - {id};
      reservations := map r | r in reservations && reservations[r].bookId != id :: reservations[r];
      return None;
    }

    method CreateCopy(bookId: string, id: string, barcode: string) returns (error: Option<Error>)
      requires Inv(View())
      modifies this`copies
      ensures Inv(View())
      ensures Outcome(View(), error) == CreateCopyStep(old(View()), bookId, id, barcode)
      ensures error.Some? ==> copies == old(copies)
      ensures error.None? ==> Registered(old(View()), View(), bookId, id, barcode)
    {
      hide Inv, Registered;
      CreateCopyKeeps(View(), bookId, id, barcode);
      if CreateCopyStep(View(), bookId, id, barcode).error == None { CreateCopyEffect(View(), bookId, id, barcode); }
      if bookId !in books {
        return Some(NotFound);
      }
      if exists c | c in copies :: copies[c].barcode == barcode {
        return Some(Conflict);
      }
      if id in copies {
        return Some(Conflict);
      }
      copies := copies[id := Copy(bookId, barcode, Available)];
      return None;
    }

    method RemoveCopy(bookId: string, id: string) returns (error: Option<Error>)
      requires Inv(View())
      modifies this`copies, this`loans
      ensures Inv(View())
      ensures Outcome(View(), error) == RemoveCopyStep(old(View()), bookId, id)
      ensures error.Some? ==> copies == old(copies) && loans == old(loans)
      ensures error.None? ==>
                && id !in copies && (forall l | l in loans :: loans[l].copyId != id)
                && (forall c | c in old(copies) && c != id :: c in copies && copies[c] == old(copies)[c])
                && (forall l | l in old(loans) && Open(old(loans)[l]) :: l in loans && loans[l] == old(loans)[l])
    {
      hide Inv;
      RemoveCopyKeeps(View(), bookId, id);
      if RemoveCopyStep(View(), bookId, id).error == None { RemoveCopyEffect(View(), bookId, id); }
      if id !in copies || copies[id].bookId != bookId {
        return Some(NotFound);
      }
      if copies[id].status != Available {
        return Some(Conflict);
      }
      copies := copies - {id};
      loans := map l | l in loans && loans[l].copyId != id :: loans[l];
      return None;
    }

    // --- Members.

    method CreateMember(id: string, member: Member, personExists: bool) returns (error: Option<Error>)
      requires Inv(View())
      modifies this`members
      ensures Inv(View())
      ensures Outcome(View(), error) == CreateMemberStep(old(View()), id, member, personExists)
      ensures error.Some? ==> members == old(members)
      ensures error.None? ==>
                && id in members && members[id].active && OpenLoansOf(loans, id) == {}
                && (forall n | n in members && members[n].memberType == member.memberType && members[n].personId == member.personId :: n == id)
                && (forall n | n in old(members) :: n in members && members[n] == old(members)[n])
    {
      hide Inv, OpenLoansOf;
      CreateMemberKeeps(View(), id, member, personExists);
      if CreateMemberStep(View(), id, member, personExists).error == None { CreateMemberEffect(View(), id, member, personExists); }
      if !personExists {
        return Some(BadRequest);
      }
      if IsMember(View(), member.memberType, member.personId) {
        return Some(BadRequest);
      }
      if id in members {
        return Some(Conflict);
      }
      members := members[id := member.(active := true)];
      return None;
    }

    method UpdateStatus(id: string, active: bool) returns (error: Option<Error>)
      requires Inv(View())
      modifies this`members
      ensures Inv(View())
      ensures Outcome(View(), error) == SetMemberStep(old(View()), id, active)
      ensures error.None? <==> id in old(members)
      ensures error.Some? ==> members == old(members)
      ensures error.None? && !active ==> forall loanId, copyId, today :: IssueStep(View(), loanId, copyId, id, today).error.Some?
      ensures error.None? ==> forall n | n in old(members) && n != id :: n in members && members[n] == old(members)[n]
    {
      hide Inv, OpenLoansOf, IssueStep;
      SetMemberKeeps(View(), id, active);
      if SetMemberStep(View(), id, active).error == None { SetMemberEffect(View(), id, active); }
      if id !in members {
        return Some(NotFound);
      }
      members := members[id := members[id].(active := active)];
      return None;
    }

    method RemoveMember(id: string) returns (error: Option<Error>)
      requires Inv(View())
      modifies this`members, this`loans, this`reservations
      ensures Inv(View())
      ensures Outcome(View(), error) == RemoveMemberStep(old(View()), id)
      ensures if error.None? then MemberGone(old(View()), View(), id) else View() == old(View())
    {
      hide Inv, MemberGone;
      RemoveMemberOutcome(View(), id);
      if id !in members {
        return Some(NotFound);
      }
      var activeLoans := |OpenLoansOf(loans, id)|;
      if activeLoans > 0 {
        return Some(BadRequest);
      }
      members := members - {id};
      loans := map l | l in loans && loans[l].memberId != id :: loans[l];
      reservations := map r | r in reservations && reservations[r].memberId != id :: reservations[r];
      return None;
    }

    /** A student's membership, created with default limits on first use. */
    method FindOrCreateForStudent(studentId: string, newId: string, studentExists: bool) returns (r: Result<string>)
      requires Inv(View()) && newId !in members
      modifies this`members
      ensures Inv(View())
      ensures r.Ok? ==> r.value in members && members[r.value].memberType == StudentMember && members[r.value].personId == studentId
      ensures IsMember(old(View()), StudentMember, studentId) ==> r.Ok? && View() == old(View())
      ensures !IsMember(old(View()), StudentMember, studentId) && studentExists ==>
                r == Ok(newId)
                && View() == CreateMemberStep(old(View()), newId, Member(StudentMember, studentId, 3, 14, true), true).state
      ensures !IsMember(old(View()), StudentMember, studentId) && !studentExists ==> r == Err(NotFound) && View() == old(View())
    {
      hide Inv;
      CreateMemberKeeps(View(), newId, Member(StudentMember, studentId, 3, 14, true), true);
      if existing :| existing in members && members[existing].memberType == StudentMember && members[existing].personId == studentId {
        return Ok(existing);
      }
      if !studentExists {
        return Err(NotFound);
      }
      members := members[newId := Member(StudentMember, studentId, 3, 14, true)];
      return Ok(newId);
    }

    // --- Circulation.

    method IssueBook(loanId: string, copyId: string, memberId: string, today: int) returns (error: Option<Error>)
      requires Inv(View())
      modifies this`loans, this`copies
      ensures Inv(View())
      ensures Outcome(View(), error) == IssueStep(old(View()), loanId, copyId, memberId, today)
      ensures if error.None? then Lent(old(View()), View(), loanId, copyId, memberId) else View() == old(View())
    {
      hide Inv, Lent, OpenLoansOf;
      IssueOutcome(View(), loanId, copyId, memberId, today);
      if copyId !in copies {
        return Some(NotFound);
      }
      if copies[copyId].status != Available {
        return Some(Conflict);
      }
      if memberId !in members {
        return Some(NotFound);
      }
      var member := members[memberId];
      if !member.active {
        return Some(BadRequest);
      }
      var activeLoans := |OpenLoansOf(loans, memberId)|;
      if activeLoans >= member.maxBooks {
        return Some(BadRequest);
      }
      if loanId in loans {
        return Some(Conflict);
      }
      var dueAt := today + member.loanPeriodDays;
      loans := loans[loanId := Loan(copyId, memberId, today, dueAt, None, 0.0, NoFine)];
      copies := copies[copyId := copies[copyId].(status := Issued)];
      return None;
    }

    method ReturnBook(loanId: string, condition: Condition, today: int, rate: real, maxFine: Option<real>)
      returns (error: Option<Error>)
      requires Inv(View())
      modifies this`loans, this`copies
      ensures Inv(View())
      ensures Outcome(View(), error) == ReturnStep(old(View()), loanId, condition, today, rate, maxFine)
      ensures if error.None? then TakenBack(old(View()), View(), loanId, condition)
                                  && FinedFairly(old(View()), View(), loanId, today, rate, maxFine)
              else View() == old(View())
    {
      hide Inv, TakenBack, FinedFairly, CalculateFine;
      ReturnOutcome(View(), loanId, condition, today, rate, maxFine);
      if loanId !in loans {
        return Some(NotFound);
      }
      var loan := loans[loanId];
      if loan.returnedAt.Some? {
        return Some(Conflict);
      }
      if loan.copyId !in copies {
        return Some(NotFound);
      }
      var fineAmount := CalculateFine(loan.dueAt, today, rate, maxFine);
      var fineStatus := if fineAmount > 0.0 then PendingFine else NoFine;
      loans := loans[loanId := loan.(returnedAt := Some(today), fineAmount := fineAmount, fineStatus := fineStatus)];
      copies := copies[loan.copyId := copies[loan.copyId].(status := StatusAfter(condition))];
      return None;
    }

    method SettleFine(loanId: string, waive: bool) returns (error: Option<Error>)
      requires Inv(View())
      modifies this`loans
      ensures Inv(View())
      ensures Outcome(View(), error) == SettleStep(old(View()), loanId, waive)
      ensures error.None? <==> loanId in old(loans) && old(loans)[loanId].fineStatus == PendingFine
      ensures if error.None? then SettledOnce(old(View()), View(), loanId) else View() == old(View())
    {
      hide Inv, SettledOnce;
      SettleOutcome(View(), loanId, waive);
      if loanId !in loans {
        return Some(NotFound);
      }
      if loans[loanId].fineStatus != PendingFine {
        return Some(Conflict);
      }
      loans := loans[loanId := loans[loanId].(fineStatus := if waive then WaivedFine else PaidFine)];
      return None;
    }

    /** What a scanned barcode shows: an issued copy's loan is always found, an available copy's next reservation is first in line. */
    method LookupByBarcode(barcode: string) returns (copy: Option<string>, activeLoan: Option<string>, next: Option<string>)
      requires Inv(View())
      ensures copy.None? <==> !BarcodeUsed(View(), barcode)
      ensures copy.Some? ==> forall c :: c in copies && copies[c].barcode == barcode <==> c == copy.value
      ensures copy.Some? && copies[copy.value].status == Issued ==>
                activeLoan.Some? && OpenLoansOn(loans, copy.value) == {activeLoan.value}
      ensures copy.Some? && copies[copy.value].status != Issued ==> activeLoan.None?
      ensures copy.Some? && copies[copy.value].status == Available ==>
                if PendingFor(View(), copies[copy.value].bookId) == {} then next.None?
                else next.Some? && next.value in PendingFor(View(), copies[copy.value].bookId) && QueuePosition(View(), next.value) == 1
    {
      copy, activeLoan, next := None, None, None;
      if c :| c in copies && copies[c].barcode == barcode {
        copy := Some(c);
        if copies[c].status == Issued {
          IssuedHasOneOpenLoan(View(), c);
          assert OpenLoansOn(loans, c) != {};
          var l :| l in loans && loans[l].copyId == c && loans[l].returnedAt == None;
          activeLoan := Some(l);
          OneElement(OpenLoansOn(loans, c), l);
        }
        if copies[c].status == Available {
          next := FindNextReservation(View(), copies[c].bookId);
        }
      }
    }

    // --- Reservations.

    method Reserve(id: string, memberId: string, bookId: string, now: int) returns (error: Option<Error>)
      requires Inv(View())
      modifies this`reservations
      ensures Inv(View())
      ensures Outcome(View(), error) == ReserveStep(old(View()), id, memberId, bookId, now)
      ensures error.Some? ==> reservations == old(reservations)
      ensures error.None? ==>
                && id in reservations && PendingFor(View(), bookId) == old(PendingFor(View(), bookId)) + {id}
                && (forall b | b != bookId :: PendingFor(View(), b) == PendingFor(old(View()), b))
                && ((forall p | p in PendingFor(old(View()), bookId) :: old(reservations)[p].createdAt < now) ==>
                      QueuePosition(View(), id) == |old(PendingFor(View(), bookId))| + 1)
    {
      hide Inv, QueuePosition;
      ReservationRowsKeep(View(), id, memberId, bookId, now);
      if ReserveStep(View(), id, memberId, bookId, now).error == None { ReserveEffect(View(), id, memberId, bookId, now); }
      if memberId !in members {
        return Some(NotFound);
      }
      if bookId !in books {
        return Some(NotFound);
      }
      if id in reservations {
        return Some(Conflict);
      }
      reservations := reservations[id := Reservation(bookId, memberId, now, Pending)];
      return None;
    }

    method CancelReservation(id: string) returns (error: Option<Error>)
      requires Inv(View())
      modifies this`reservations
      ensures Inv(View())
      ensures Outcome(View(), error) == CancelStep(old(View()), id)
      ensures error.Some? ==> reservations == old(reservations)
      ensures error.None? ==> MovedUp(old(View()), View(), id)
    {
      hide Inv, MovedUp, FulfillStep;
      ReservationRowsKeep(View(), id, "", "", 0);
      if CancelStep(View(), id).error == None {
        CancelAndFulfillLeave(View(), id, "", "", 0);
        LeavingMovesUp(View(), CancelStep(View(), id).state, id);
      }
      if id !in reservations {
        return Some(NotFound);
      }
      if reservations[id].status != Pending {
        return Some(Conflict);
      }
      reservations := reservations[id := reservations[id].(status := Cancelled)];
      return None;
    }

    method FulfillReservation(id: string, loanId: string, copyId: string, today: int) returns (error: Option<Error>)
      requires Inv(View())
      modifies this`reservations, this`loans, this`copies
      ensures Inv(View())
      ensures Outcome(View(), error) == FulfillStep(old(View()), id, loanId, copyId, today)
      ensures if error.None? then id in old(reservations) && MovedUp(old(View()), View(), id)
                                  && Lent(old(View()), View(), loanId, copyId, old(reservations)[id].memberId)
              else View() == old(View())
    {
      hide Inv, MovedUp, Lent, OpenLoansOf;
      FulfillOutcome(View(), id, loanId, copyId, today);
      if id !in reservations {
        return Some(NotFound);
      }
      var reservation := reservations[id];
      if reservation.status != Pending {
        return Some(Conflict);
      }
      error := IssueBook(loanId, copyId, reservation.memberId, today);
      if error.Some? {
        return;
      }
      reservations := reservations[id := reservation.(status := Fulfilled)];
    }
  }
}
