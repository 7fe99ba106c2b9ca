/** What each library operation refuses, and what it writes to the tables. */
module LibraryEffects {
  import opened Wrappers
  import opened Tables
  import opened Library

  // --- Catalogue.

  /** A book is added unless it is there. */
  lemma CreateBookWrites(s: Shelves, id: string)
    ensures var r := CreateBookStep(s, id);
            && (r.error == None <==> id !in s.books)
            && (r.error.Some? ==> r == Outcome(s, Some(Conflict)))
            && (r.error.None? ==> r.state == s.(books := r.state.books) && r.state.books - {id} == s.books && id in r.state.books)
  {
  }

  /** A book without copies and pending reservations is deleted with its past reservations, and nothing else. */
  lemma RemoveBookWrites(s: Shelves, id: string)
    ensures var r := RemoveBookStep(s, id);
            var t := r.state;
            && (r.error == Some(NotFound) <==> id !in s.books)
            && (r.error == None <==>
                  && id in s.books && (forall c | c in s.copies :: s.copies[c].bookId != id)
                  && forall p | p in s.reservations && s.reservations[p].bookId == id :: !s.reservations[p].status.Pending?)
            && (r.error.Some? ==> t == s && r.error.value in {NotFound, Conflict})
            && (r.error.None? ==>
                  && t == s.(books := t.books, reservations := t.reservations)
                  && t.books == s.books - {id} && Left(s.reservations, t.reservations, (p: Reservation) => p.bookId != id))
  {
  }

  /** A copy of a known book is added as available, under a barcode no other copy has. */
  lemma CreateCopyWrites(s: Shelves, bookId: string, id: string, barcode: string)
    ensures var r := CreateCopyStep(s, bookId, id, barcode);
            && (r.error == Some(NotFound) <==> bookId !in s.books)
            && (r.error == None <==> bookId in s.books && id !in s.copies && forall c | c in s.copies :: s.copies[c].barcode != barcode)
            && (r.error.Some? ==> r.state == s && r.error.value in {NotFound, Conflict})
            && (r.error.None? ==>
                  r.state == s.(copies := r.state.copies) && Put(s.copies, r.state.copies, id, Copy(bookId, barcode, Available)))
  {
  }

  /** An available copy of the book is deleted with its past loans, and nothing else. */
  lemma RemoveCopyWrites(s: Shelves, bookId: string, id: string)
    ensures var r := RemoveCopyStep(s, bookId, id);
            var t := r.state;
            && (r.error == Some(NotFound) <==> id !in s.copies || s.copies[id].bookId != bookId)
            && (r.error == None <==> id in s.copies && s.copies[id].bookId == bookId && s.copies[id].status.Available?)
            && (r.error.Some? ==> t == s && r.error.value in {NotFound, Conflict})
            && (r.error.None? ==>
                  && t == s.(copies := t.copies, loans := t.loans)
                  && t.copies == s.copies - {id} && Left(s.loans, t.loans, (l: Loan) => l.copyId != id))
  {
  }

  // --- Members.

  /** An existing person without a membership becomes a member on the terms given, active. */
  lemma CreateMemberWrites(s: Shelves, id: string, m: Member, personExists: bool)
    ensures var r := CreateMemberStep(s, id, m, personExists);
            var unknown := forall n | n in s.members :: s.members[n].memberType != m.memberType || s.members[n].personId != m.personId;
            && (r.error == Some(BadRequest) <==> !personExists || !unknown)
            && (r.error == None <==> personExists && unknown && id !in s.members)
            && (r.error.Some? ==> r.state == s && r.error.value in {BadRequest, Conflict})
            && (r.error.None? ==>
                  && r.state == s.(members := r.state.members)
                  && Put(s.members, r.state.members, id, Member(m.memberType, m.personId, m.maxBooks, m.loanPeriodDays, true)))
  {
  }

  lemma SetMemberWrites(s: Shelves, id: string, active: bool)
    ensures var r := SetMemberStep(s, id, active);
            && (r.error == None <==> id in s.members)
            && (r.error.Some? ==> r == Outcome(s, Some(NotFound)))
            && (r.error.None? ==>
                  var m := s.members[id];
                  && r.state == s.(members := r.state.members)
                  && Put(s.members, r.state.members, id, Member(m.memberType, m.personId, m.maxBooks, m.loanPeriodDays, active)))
  {
  }

  /** A member with nothing on loan is deleted with its past loans and its reservations, and nothing else. */
  lemma RemoveMemberWrites(s: Shelves, id: string)
    ensures var r := RemoveMemberStep(s, id);
            var t := r.state;
            && (r.error == Some(NotFound) <==> id !in s.members)
            && (r.error == None <==>
                  id in s.members && forall l | l in s.loans && s.loans[l].memberId == id :: s.loans[l].returnedAt.Some?)
            && (r.error.Some? ==> t == s && r.error.value in {NotFound, BadRequest})
            && (r.error.None? ==>
                  && t == s.(members := t.members, loans := t.loans, reservations := t.reservations)
                  && t.members == s.members - {id} && Left(s.loans, t.loans, (l: Loan) => l.memberId != id)
                  && Left(s.reservations, t.reservations, (p: Reservation) => p.memberId != id))
  {
    forall l
      ensures l in OpenLoansOf(s.loans, id) <==> l in s.loans && s.loans[l].memberId == id && !s.loans[l].returnedAt.Some?
    {
    }
    hide OpenLoansOf;
    assert OpenLoansOf(s.loans, id) != {} ==> exists l :: l in OpenLoansOf(s.loans, id);
  }

  // --- Circulation.

  /** An active member below its limit borrows an available copy, until the loan period after today. */
  lemma IssueWrites(s: Shelves, loanId: string, copyId: string, memberId: string, today: int)
    ensures var r := IssueStep(s, loanId, copyId, memberId, today);
            var t := r.state;
            var lendable := copyId in s.copies && s.copies[copyId].status.Available?;
            var open := |set l | l in s.loans && s.loans[l].returnedAt.None? && s.loans[l].memberId == memberId|;
            && (r.error == Some(NotFound) <==> copyId !in s.copies || (lendable && memberId !in s.members))
            && (r.error == Some(BadRequest) <==>
                  lendable && memberId in s.members && (!s.members[memberId].active || s.members[memberId].maxBooks <= open))
            && (r.error == None <==>
                  && lendable && memberId in s.members && loanId !in s.loans
                  && s.members[memberId].active && open < s.members[memberId].maxBooks)
            && (r.error.Some? ==> t == s && r.error.value in {NotFound, BadRequest, Conflict})
            && (r.error.None? ==>
                  && t == s.(loans := t.loans, copies := t.copies)
                  && Put(s.loans, t.loans, loanId,
                         Loan(copyId, memberId, today, today + s.members[memberId].loanPeriodDays, None, 0.0, NoFine))
                  && Put(s.copies, t.copies, copyId, Copy(s.copies[copyId].bookId, s.copies[copyId].barcode, Issued)))
  {
    assert OpenLoansOf(s.loans, memberId) == set l | l in s.loans && s.loans[l].returnedAt.None? && s.loans[l].memberId == memberId;
  }

  /** Days late times the rate, but no more than the cap; a cap of zero is none. */
  lemma FineAmount(dueAt: int, returnedAt: int, rate: real, maxFine: Option<real>)
    ensures var f := CalculateFine(dueAt, returnedAt, rate, maxFine);
            var full := if returnedAt <= dueAt then 0.0 else (returnedAt - dueAt) as real * rate;
            && f <= full && (f < full ==> maxFine == Some(f))
            && (maxFine.Some? && maxFine.value != 0.0 ==> f <= maxFine.value)
            && (maxFine.None? || maxFine.value == 0.0 ==> f == full)
  {
  }

  /** Three days late at 2.50 a day is 7.50, and 5 under a cap of 5. */
  lemma FineExample()
    ensures CalculateFine(10, 13, 2.5, None) == 7.5 && CalculateFine(10, 13, 2.5, Some(5.0)) == 5.0
  {
  }

  lemma LoanedCopyExists(s: Shelves, loanId: string)
    requires Inv(s)
    ensures loanId in s.loans ==> s.loans[loanId].copyId in s.copies
  {
    hide WithinLimits, Referenced, DistinctBarcodes, OneMembership;
  }

  /** An open loan is closed today with its fine, pending if there is one, and the copy gets the status of its condition. */
  lemma ReturnWrites(s: Shelves, loanId: string, condition: Condition, today: int, rate: real, maxFine: Option<real>)
    requires Inv(s)
    ensures var r := ReturnStep(s, loanId, condition, today, rate, maxFine);
            var t := r.state;
            && (r.error == Some(NotFound) <==> loanId !in s.loans)
            && (r.error == None <==> loanId in s.loans && s.loans[loanId].returnedAt.None?)
            && (r.error.Some? ==> t == s && r.error.value in {NotFound, Conflict})
            && (r.error.None? ==>
                  var l := s.loans[loanId];
                  var fine := CalculateFine(l.dueAt, today, rate, maxFine);
                  && t == s.(loans := t.loans, copies := t.copies)
                  && Put(s.loans, t.loans, loanId,
                         Loan(l.copyId, l.memberId, l.issuedAt, l.dueAt, Some(today), fine, if fine > 0.0 then PendingFine else NoFine))
                  && l.copyId in s.copies
                  && Put(s.copies, t.copies, l.copyId,
                         Copy(s.copies[l.copyId].bookId, s.copies[l.copyId].barcode,
                              if condition.Fine? then Available else if condition.LostCopy? then Lost else Damaged)))
  {
    hide Inv, CalculateFine;
    LoanedCopyExists(s, loanId);
  }

  /** A pending fine is paid or waived as asked, and nothing else about the loan changes. */
  lemma SettleWrites(s: Shelves, loanId: string, waive: bool)
    ensures var r := SettleStep(s, loanId, waive);
            && (r.error == Some(NotFound) <==> loanId !in s.loans)
            && (r.error == None <==> loanId in s.loans && s.loans[loanId].fineStatus.PendingFine?)
            && (r.error.Some? ==> r.state == s && r.error.value in {NotFound, Conflict})
            && (r.error.None? ==>
                  var l := s.loans[loanId];
                  && r.state == s.(loans := r.state.loans)
                  && Put(s.loans, r.state.loans, loanId,
                         Loan(l.copyId, l.memberId, l.issuedAt, l.dueAt, l.returnedAt, l.fineAmount,
                              if waive then WaivedFine else PaidFine)))
  {
  }

  // --- Reservations.

  lemma ReserveWrites(s: Shelves, id: string, memberId: string, bookId: string, now: int)
    ensures var r := ReserveStep(s, id, memberId, bookId, now);
            && (r.error == Some(NotFound) <==> memberId !in s.members || bookId !in s.books)
            && (r.error == None <==> memberId in s.members && bookId in s.books && id !in s.reservations)
            && (r.error.Some? ==> r.state == s && r.error.value in {NotFound, Conflict})
            && (r.error.None? ==>
                  && r.state == s.(reservations := r.state.reservations)
                  && Put(s.reservations, r.state.reservations, id, Reservation(bookId, memberId, now, Pending)))
  {
  }

  lemma CancelWrites(s: Shelves, id: string)
    ensures var r := CancelStep(s, id);
            && (r.error == Some(NotFound) <==> id !in s.reservations)
            && (r.error == None <==> id in s.reservations && s.reservations[id].status.Pending?)
            && (r.error.Some? ==> r.state == s && r.error.value in {NotFound, Conflict})
            && (r.error.None? ==>
                  var p := s.reservations[id];
                  && r.state == s.(reservations := r.state.reservations)
                  && Put(s.reservations, r.state.reservations, id, Reservation(p.bookId, p.memberId, p.createdAt, Cancelled)))
  {
  }

  /** Fulfilling is issuing the copy to the reserver and marking the reservation, and fails for either reason. */
  lemma FulfillWrites(s: Shelves, id: string, loanId: string, copyId: string, today: int)
    ensures var r := FulfillStep(s, id, loanId, copyId, today);
            && (id !in s.reservations ==> r == Outcome(s, Some(NotFound)))
            && (id in s.reservations && !s.reservations[id].status.Pending? ==> r == Outcome(s, Some(Conflict)))
            && (id in s.reservations && s.reservations[id].status.Pending? ==>
                  var p := s.reservations[id];
                  var issued := IssueStep(s, loanId, copyId, p.memberId, today);
                  && r.error == issued.error && (r.error.Some? ==> r.state == s)
                  && (r.error.None? ==>
                        && r.state == issued.state.(reservations := r.state.reservations)
                        && Put(s.reservations, r.state.reservations, id, Reservation(p.bookId, p.memberId, p.createdAt, Fulfilled))))
  {
    if id in s.reservations { IssueWrites(s, loanId, copyId, s.reservations[id].memberId, today); }
    hide IssueStep;
  }
}
