/**
 * The library: catalogue, members, loans and reservations as tables keyed by identifier, what each
 * operation does to them, and what every run keeps. Dates are day numbers.
 */
module Library {
  import opened Wrappers
  import opened FiniteSets

  datatype CopyStatus = Available | Issued | Lost | Damaged

  datatype Condition = Fine | LostCopy | DamagedCopy

  datatype Copy = Copy(bookId: string, barcode: string, status: CopyStatus)

  datatype MemberType = StudentMember | TeacherMember

  datatype Member = Member(memberType: MemberType, personId: string, maxBooks: nat, loanPeriodDays: nat, active: bool)

  datatype FineStatus = NoFine | PendingFine | PaidFine | WaivedFine

  datatype Loan = Loan(
    copyId: string, memberId: string, issuedAt: int, dueAt: int, returnedAt: Option<int>,
    fineAmount: real, fineStatus: FineStatus)

  datatype ReservationStatus = Pending | Fulfilled | Cancelled

  datatype Reservation = Reservation(bookId: string, memberId: string, createdAt: int, status: ReservationStatus)

  datatype Shelves = Shelves(
    books: set<string>,
    copies: map<string, Copy>,
    members: map<string, Member>,
    loans: map<string, Loan>,
    reservations: map<string, Reservation>)

  datatype Outcome = Outcome(state: Shelves, error: Option<Error>)

  function Fail(s: Shelves, e: Error): Outcome { Outcome(s, Some(e)) }

  predicate Open(l: Loan) { l.returnedAt == None }

  function OpenLoansOf(loans: map<string, Loan>, memberId: string): set<string> {
    set l | l in loans && Open(loans[l]) && loans[l].memberId == memberId
  }

  // --- Catalogue. Deleting a row deletes the rows that refer to it.

  function CreateBookStep(s: Shelves, id: string): Outcome {
    if id in s.books then Fail(s, Conflict) else Outcome(s.(books := s.books + {id}), None)
  }

  predicate HasCopies(s: Shelves, bookId: string) { exists c | c in s.copies :: s.copies[c].bookId == bookId }

  predicate Reserved(s: Shelves, bookId: string) {
    exists r | r in s.reservations :: s.reservations[r].bookId == bookId && s.reservations[r].status == Pending
  }

  function RemoveBookStep(s: Shelves, id: string): Outcome {
    if id !in s.books then Fail(s, NotFound)
    else if HasCopies(s, id) || Reserved(s, id) then Fail(s, Conflict)
    else Outcome(s.(books := s.books - {id},
                    reservations := map r | r in s.reservations && s.reservations[r].bookId != id :: s.reservations[r]), None)
  }

  predicate BarcodeUsed(s: Shelves, barcode: string) { exists c | c in s.copies :: s.copies[c].barcode == barcode }

  function CreateCopyStep(s: Shelves, bookId: string, id: string, barcode: string): Outcome {
    if bookId !in s.books then Fail(s, NotFound)
    else if BarcodeUsed(s, barcode) || id in s.copies then Fail(s, Conflict)
    else Outcome(s.(copies := s.copies[id := Copy(bookId, barcode, Available)]), None)
  }

  function RemoveCopyStep(s: Shelves, bookId: string, id: string): Outcome {
    if id !in s.copies || s.copies[id].bookId != bookId then Fail(s, NotFound)
    else if s.copies[id].status != Available then Fail(s, Conflict)
    else Outcome(s.(copies := s.copies - {id},
                    loans := map l | l in s.loans && s.loans[l].copyId != id :: s.loans[l]), None)
  }

  // --- Members.

  predicate IsMember(s: Shelves, t: MemberType, personId: string) {
    exists m | m in s.members :: s.members[m].memberType == t && s.members[m].personId == personId
  }

  function CreateMemberStep(s: Shelves, id: string, m: Member, personExists: bool): Outcome {
    if !personExists then Fail(s, BadRequest)
    else if IsMember(s, m.memberType, m.personId) then Fail(s, BadRequest)
    else if id in s.members then Fail(s, Conflict)
    else Outcome(s.(members := s.members[id := m.(active := true)]), None)
  }

  function SetMemberStep(s: Shelves, id: string, active: bool): Outcome {
    if id !in s.members then Fail(s, NotFound)
    else Outcome(s.(members := s.members[id := s.members[id].(active := active)]), None)
  }

  function RemoveMemberStep(s: Shelves, id: string): Outcome {
    if id !in s.members then Fail(s, NotFound)
    else if OpenLoansOf(s.loans, id) != {} then Fail(s, BadRequest)
    else Outcome(s.(members := s.members - {id},
                    loans := map l | l in s.loans && s.loans[l].memberId != id :: s.loans[l],
                    reservations := map r | r in s.reservations && s.reservations[r].memberId != id :: s.reservations[r]), None)
  }

  // --- Circulation.

  function NewLoan(s: Shelves, copyId: string, memberId: string, today: int): Loan
    requires memberId in s.members
  {
    Loan(copyId, memberId, today, today + s.members[memberId].loanPeriodDays, None, 0.0, NoFine)
  }

  function IssueStep(s: Shelves, loanId: string, copyId: string, memberId: string, today: int): Outcome {
    if copyId !in s.copies then Fail(s, NotFound)
    else if s.copies[copyId].status != Available then Fail(s, Conflict)
    else if memberId !in s.members then Fail(s, NotFound)
    else if !s.members[memberId].active then Fail(s, BadRequest)
    else if |OpenLoansOf(s.loans, memberId)| >= s.members[memberId].maxBooks then Fail(s, BadRequest)
    else if loanId in s.loans then Fail(s, Conflict)
    else
      Outcome(s.(loans := s.loans[loanId := NewLoan(s, copyId, memberId, today)],
                 copies := s.copies[copyId := s.copies[copyId].(status := Issued)]), None)
  }

  /** Whole days late at the daily rate, capped when there is a non-zero cap. */
  function CalculateFine(dueAt: int, returnedAt: int, ratePerDay: real, maxFine: Option<real>): real {
    var days := if returnedAt > dueAt then returnedAt - dueAt else 0;
    var fine := days as real * ratePerDay;
    if maxFine.Some? && maxFine.value != 0.0 && maxFine.value < fine then maxFine.value else fine
  }

  function StatusAfter(c: Condition): CopyStatus {
    match c case Fine => Available case LostCopy => Lost case DamagedCopy => Damaged
  }

  function ReturnStep(s: Shelves, loanId: string, condition: Condition, today: int, rate: real, maxFine: Option<real>): Outcome {
    if loanId !in s.loans then Fail(s, NotFound)
    else if !Open(s.loans[loanId]) then Fail(s, Conflict)
    else
      var l := s.loans[loanId];
      var fine := CalculateFine(l.dueAt, today, rate, maxFine);
      if l.copyId !in s.copies then Fail(s, NotFound)
      else Outcome(
        s.(loans := s.loans[loanId := l.(returnedAt := Some(today), fineAmount := fine,
                                         fineStatus := if fine > 0.0 then PendingFine else NoFine)],
           copies := s.copies[l.copyId := s.copies[l.copyId].(status := StatusAfter(condition))]), None)
  }

  function SettleStep(s: Shelves, loanId: string, waive: bool): Outcome {
    if loanId !in s.loans then Fail(s, NotFound)
    else if s.loans[loanId].fineStatus != PendingFine then Fail(s, Conflict)
    else Outcome(s.(loans := s.loans[loanId := s.loans[loanId].(fineStatus := if waive then WaivedFine else PaidFine)]), None)
  }

  // --- Reservations.

  function ReserveStep(s: Shelves, id: string, memberId: string, bookId: string, now: int): Outcome {
    if memberId !in s.members then Fail(s, NotFound)
    else if bookId !in s.books then Fail(s, NotFound)
    else if id in s.reservations then Fail(s, Conflict)
    else Outcome(s.(reservations := s.reservations[id := Reservation(bookId, memberId, now, Pending)]), None)
  }

  function CancelStep(s: Shelves, id: string): Outcome {
    if id !in s.reservations then Fail(s, NotFound)
    else if s.reservations[id].status != Pending then Fail(s, Conflict)
    else Outcome(s.(reservations := s.reservations[id := s.reservations[id].(status := Cancelled)]), None)
  }

  function FulfillStep(s: Shelves, id: string, loanId: string, copyId: string, today: int): Outcome {
    if id !in s.reservations then Fail(s, NotFound)
    else if s.reservations[id].status != Pending then Fail(s, Conflict)
    else
      var r := IssueStep(s, loanId, copyId, s.reservations[id].memberId, today);
      if r.error.Some? then r
      else Outcome(r.state.(reservations := s.reservations[id := s.reservations[id].(status := Fulfilled)]), None)
  }

  // --- Runs.

  datatype Command =
    | CreateBook(bookId: string)
    | RemoveBook(bookId: string)
    | CreateCopy(bookId: string, copyId: string, barcode: string)
    | RemoveCopy(bookId: string, copyId: string)
    | CreateMember(memberId: string, member: Member, personExists: bool)
    | SetMember(memberId: string, active: bool)
    | RemoveMember(memberId: string)
    | Issue(loanId: string, copyId: string, memberId: string, today: int)
    | Return(loanId: string, condition: Condition, today: int, rate: real, maxFine: Option<real>)
    | Settle(loanId: string, waive: bool)
    | Reserve(reservationId: string, memberId: string, bookId: string, now: int)
    | Cancel(reservationId: string)
    | Fulfill(reservationId: string, loanId: string, copyId: string, today: int)

  function Step(s: Shelves, c: Command): Shelves {
    match c
    case CreateBook(b) => CreateBookStep(s, b).state
    case RemoveBook(b) => RemoveBookStep(s, b).state
    case CreateCopy(b, id, code) => CreateCopyStep(s, b, id, code).state
    case RemoveCopy(b, id) => RemoveCopyStep(s, b, id).state
    case CreateMember(id, m, e) => CreateMemberStep(s, id, m, e).state
    case SetMember(id, a) => SetMemberStep(s, id, a).state
    case RemoveMember(id) => RemoveMemberStep(s, id).state
    case Issue(l, copy, m, today) => IssueStep(s, l, copy, m, today).state
    case Return(l, cond, today, rate, max) => ReturnStep(s, l, cond, today, rate, max).state
    case Settle(l, w) => SettleStep(s, l, w).state
    case Reserve(r, m, b, now) => ReserveStep(s, r, m, b, now).state
    case Cancel(r) => CancelStep(s, r).state
    case Fulfill(r, l, copy, today) => FulfillStep(s, r, l, copy, today).state
  }

  function Run(cs: seq<Command>): Shelves {
    if cs == [] then Shelves({}, map[], map[], map[], map[]) else Step(Run(cs[..|cs| - 1]), cs[|cs| - 1])
  }

  // --- What every run keeps.

  ghost predicate OnLoan(loans: map<string, Loan>, l: string, copyId: string) {
    l in loans && Open(loans[l]) && loans[l].copyId == copyId
  }

  ghost predicate HasOpenLoan(loans: map<string, Loan>, copyId: string) { exists l :: OnLoan(loans, l, copyId) }

  /** Open loans and issued copies match: a loan's copy is issued, an issued copy has a loan, and never two. */
  ghost predicate Matched(copies: map<string, Copy>, loans: map<string, Loan>) {
    && (forall l | l in loans :: loans[l].copyId in copies)
    && (forall l | l in loans && Open(loans[l]) :: copies[loans[l].copyId].status == Issued)
    && (forall k, l, c | OnLoan(loans, k, c) && OnLoan(loans, l, c) :: k == l)
    && (forall c | c in copies && copies[c].status == Issued :: HasOpenLoan(loans, c))
  }

  /** No member is over its limit. */
  ghost predicate WithinLimits(members: map<string, Member>, loans: map<string, Loan>) {
    && (forall l | l in loans :: loans[l].memberId in members)
    && (forall m | m in members :: |OpenLoansOf(loans, m)| <= members[m].maxBooks)
  }

  ghost predicate Referenced(s: Shelves) {
    && (forall c | c in s.copies :: s.copies[c].bookId in s.books)
    && (forall r | r in s.reservations :: s.reservations[r].bookId in s.books && s.reservations[r].memberId in s.members)
  }

  ghost predicate DistinctBarcodes(copies: map<string, Copy>) {
    forall c, d | c in copies && d in copies && c != d :: copies[c].barcode != copies[d].barcode
  }

  ghost predicate OneMembership(members: map<string, Member>) {
    forall m, n | m in members && n in members && m != n ::
      members[m].memberType != members[n].memberType || members[m].personId != members[n].personId
  }

  /** Copies on loan, members' limits, references, and the unique keys of copies and members. */
  ghost predicate Inv(s: Shelves) {
    Matched(s.copies, s.loans) && WithinLimits(s.members, s.loans) && Referenced(s)
    && DistinctBarcodes(s.copies) && OneMembership(s.members)
  }

  lemma SameBarcodes(copies: map<string, Copy>, copies': map<string, Copy>)
    requires DistinctBarcodes(copies)
    requires forall c | c in copies' :: c in copies && copies'[c].barcode == copies[c].barcode
    ensures DistinctBarcodes(copies')
  {
  }

  lemma NewBarcode(s: Shelves, id: string, copy: Copy)
    requires DistinctBarcodes(s.copies) && !BarcodeUsed(s, copy.barcode)
    ensures DistinctBarcodes(s.copies[id := copy])
  {
  }

  lemma SamePeople(members: map<string, Member>, members': map<string, Member>)
    requires OneMembership(members)
    requires forall m | m in members' ::
               m in members && members'[m].memberType == members[m].memberType && members'[m].personId == members[m].personId
    ensures OneMembership(members')
  {
  }

  lemma NewPerson(s: Shelves, id: string, m: Member)
    requires OneMembership(s.members) && !IsMember(s, m.memberType, m.personId)
    ensures OneMembership(s.members[id := m])
  {
  }

  lemma IssueMatches(copies: map<string, Copy>, loans: map<string, Loan>, id: string, loan: Loan)
    requires Matched(copies, loans) && id !in loans && Open(loan)
    requires loan.copyId in copies && copies[loan.copyId].status != Issued
    ensures Matched(copies[loan.copyId := copies[loan.copyId].(status := Issued)], loans[id := loan])
  {
    var copies', loans' := copies[loan.copyId := copies[loan.copyId].(status := Issued)], loans[id := loan];
    forall k, l, c | OnLoan(loans', k, c) && OnLoan(loans', l, c) ensures k == l {
      if k != id { assert OnLoan(loans, k, c); }
      if l != id { assert OnLoan(loans, l, c); }
    }
    forall c | c in copies' && copies'[c].status == Issued ensures HasOpenLoan(loans', c) {
      if c == loan.copyId {
        assert OnLoan(loans', id, c);
      } else {
        assert HasOpenLoan(loans, c);
        var l :| OnLoan(loans, l, c);
        assert OnLoan(loans', l, c);
      }
    }
  }

  lemma ReturnMatches(copies: map<string, Copy>, loans: map<string, Loan>, id: string, loan: Loan, status: CopyStatus)
    requires Matched(copies, loans) && id in loans && Open(loans[id]) && !Open(loan) && loan.copyId == loans[id].copyId
    requires status != Issued
    ensures Matched(copies[loan.copyId := copies[loan.copyId].(status := status)], loans[id := loan])
  {
    var copies', loans' := copies[loan.copyId := copies[loan.copyId].(status := status)], loans[id := loan];
    assert OnLoan(loans, id, loan.copyId);
    forall l | l in loans' && Open(loans'[l]) ensures loans'[l].copyId != loan.copyId {
      assert OnLoan(loans, l, loans'[l].copyId);
    }
    forall k, l, c | OnLoan(loans', k, c) && OnLoan(loans', l, c) ensures k == l {
      assert OnLoan(loans, k, c) && OnLoan(loans, l, c);
    }
    forall c | c in copies' && copies'[c].status == Issued ensures HasOpenLoan(loans', c) {
      assert HasOpenLoan(loans, c);
      var l :| OnLoan(loans, l, c);
      assert OnLoan(loans', l, c);
    }
  }

  /** Loans may be dropped or changed as long as the open ones stay open on the same copies. */
  lemma SameOpenLoansMatch(copies: map<string, Copy>, loans: map<string, Loan>, loans': map<string, Loan>)
    requires Matched(copies, loans)
    requires forall l | l in loans' :: l in loans && loans'[l].copyId == loans[l].copyId && (Open(loans'[l]) <==> Open(loans[l]))
    requires forall l | l in loans && Open(loans[l]) :: l in loans'
    ensures Matched(copies, loans')
  {
    forall k, l, c | OnLoan(loans', k, c) && OnLoan(loans', l, c) ensures k == l {
      assert OnLoan(loans, k, c) && OnLoan(loans, l, c);
    }
    forall c | c in copies && copies[c].status == Issued ensures HasOpenLoan(loans', c) {
      assert HasOpenLoan(loans, c);
      var l :| OnLoan(loans, l, c);
      assert OnLoan(loans', l, c);
    }
  }

  /** Members may gain or lose others' rows as long as nobody's open loans grow or limit changes. */
  lemma SameLoansWithinLimits(members: map<string, Member>, loans: map<string, Loan>, members': map<string, Member>, loans': map<string, Loan>)
    requires WithinLimits(members, loans)
    requires forall l | l in loans' ::
               && l in loans && loans'[l].memberId == loans[l].memberId && loans'[l].memberId in members'
               && (Open(loans'[l]) ==> Open(loans[l]))
    requires forall m | m in members' && m in members :: members'[m].maxBooks == members[m].maxBooks
    ensures WithinLimits(members', loans')
  {
    forall m | m in members' ensures |OpenLoansOf(loans', m)| <= members'[m].maxBooks {
      SubsetSize(OpenLoansOf(loans', m), OpenLoansOf(loans, m));
      if m !in members { assert OpenLoansOf(loans, m) == {}; }
    }
  }

  lemma IssueWithinLimits(members: map<string, Member>, loans: map<string, Loan>, id: string, loan: Loan)
    requires WithinLimits(members, loans) && loan.memberId in members && id !in loans
    requires |OpenLoansOf(loans, loan.memberId)| < members[loan.memberId].maxBooks
    ensures WithinLimits(members, loans[id := loan])
  {
    forall m | m in members ensures |OpenLoansOf(loans[id := loan], m)| <= members[m].maxBooks {
      assert OpenLoansOf(loans[id := loan], m) <= OpenLoansOf(loans, m) + if m == loan.memberId then {id} else {};
      SubsetSize(OpenLoansOf(loans[id := loan], m), OpenLoansOf(loans, m) + if m == loan.memberId then {id} else {});
    }
  }

  lemma BooksKeep(s: Shelves, id: string)
    requires Inv(s)
    ensures Inv(CreateBookStep(s, id).state) && Inv(RemoveBookStep(s, id).state)
  {
    hide Matched, WithinLimits, DistinctBarcodes, OneMembership, Reserved;
  }

  lemma NewCopyMatches(copies: map<string, Copy>, loans: map<string, Loan>, id: string, copy: Copy)
    requires Matched(copies, loans) && id !in copies && copy.status != Issued
    ensures Matched(copies[id := copy], loans)
  {
  }

  lemma CreateCopyKeeps(s: Shelves, bookId: string, id: string, barcode: string)
    requires Inv(s)
    ensures Inv(CreateCopyStep(s, bookId, id, barcode).state)
  {
    hide Matched, WithinLimits, BarcodeUsed, DistinctBarcodes, OneMembership;
    if CreateCopyStep(s, bookId, id, barcode).error.None? {
      NewBarcode(s, id, Copy(bookId, barcode, Available));
      NewCopyMatches(s.copies, s.loans, id, Copy(bookId, barcode, Available));
    }
  }

  lemma FewerCopiesMatch(copies: map<string, Copy>, loans: map<string, Loan>, id: string)
    requires Matched(copies, loans) && forall l | l in loans :: loans[l].copyId != id
    ensures Matched(copies - {id}, loans)
  {
  }

  lemma MembersOfLoans(s: Shelves)
    requires WithinLimits(s.members, s.loans)
    ensures forall l | l in s.loans :: s.loans[l].memberId in s.members
  {
  }

  lemma RemoveCopyKeeps(s: Shelves, bookId: string, id: string)
    requires Inv(s)
    ensures Inv(RemoveCopyStep(s, bookId, id).state)
  {
    var t := RemoveCopyStep(s, bookId, id).state;
    if RemoveCopyStep(s, bookId, id).error.None? {
      assert forall l | l in s.loans && Open(s.loans[l]) :: s.loans[l].copyId != id;
      hide Matched, WithinLimits, DistinctBarcodes, OneMembership;
      SameBarcodes(s.copies, t.copies);
      MembersOfLoans(s);
      SameOpenLoansMatch(s.copies, s.loans, t.loans);
      FewerCopiesMatch(s.copies, t.loans, id);
      SameLoansWithinLimits(s.members, s.loans, t.members, t.loans);
    }
  }

  lemma CreateMemberKeeps(s: Shelves, id: string, m: Member, personExists: bool)
    requires Inv(s)
    ensures Inv(CreateMemberStep(s, id, m, personExists).state)
  {
    hide Matched, WithinLimits, DistinctBarcodes, OneMembership, IsMember;
    if CreateMemberStep(s, id, m, personExists).error.None? {
      MembersOfLoans(s);
      SameLoansWithinLimits(s.members, s.loans, s.members[id := m.(active := true)], s.loans);
      NewPerson(s, id, m.(active := true));
    }
  }

  lemma SetMemberKeeps(s: Shelves, id: string, active: bool)
    requires Inv(s)
    ensures Inv(SetMemberStep(s, id, active).state)
  {
    hide Matched, WithinLimits, DistinctBarcodes, OneMembership;
    MembersOfLoans(s);
    SameLoansWithinLimits(s.members, s.loans, SetMemberStep(s, id, active).state.members, s.loans);
    SamePeople(s.members, SetMemberStep(s, id, active).state.members);
  }

  lemma RemoveMemberKeeps(s: Shelves, id: string)
    requires Inv(s)
    ensures Inv(RemoveMemberStep(s, id).state)
  {
    hide Matched, WithinLimits, DistinctBarcodes, OneMembership;
    SamePeople(s.members, RemoveMemberStep(s, id).state.members);
    var t := RemoveMemberStep(s, id).state;
    if RemoveMemberStep(s, id).error.None? {
      forall l | l in s.loans && Open(s.loans[l]) ensures l in t.loans {
        assert s.loans[l].memberId == id ==> l in OpenLoansOf(s.loans, id);
      }
      MembersOfLoans(s);
      SameOpenLoansMatch(s.copies, s.loans, t.loans);
      SameLoansWithinLimits(s.members, s.loans, t.members, t.loans);
    }
  }

  lemma IssueKeeps(s: Shelves, loanId: string, copyId: string, memberId: string, today: int)
    requires Inv(s)
    ensures Inv(IssueStep(s, loanId, copyId, memberId, today).state)
  {
    hide Matched, WithinLimits, DistinctBarcodes, OneMembership;
    SameBarcodes(s.copies, IssueStep(s, loanId, copyId, memberId, today).state.copies);
    if IssueStep(s, loanId, copyId, memberId, today).error.None? {
      var loan := Loan(copyId, memberId, today, today + s.members[memberId].loanPeriodDays, None, 0.0, NoFine);
      IssueMatches(s.copies, s.loans, loanId, loan);
      IssueWithinLimits(s.members, s.loans, loanId, loan);
    }
  }

  lemma ReturnKeeps(s: Shelves, loanId: string, condition: Condition, today: int, rate: real, maxFine: Option<real>)
    requires Inv(s)
    ensures Inv(ReturnStep(s, loanId, condition, today, rate, maxFine).state)
  {
    hide Matched, WithinLimits, CalculateFine, DistinctBarcodes, OneMembership;
    SameBarcodes(s.copies, ReturnStep(s, loanId, condition, today, rate, maxFine).state.copies);
    var t := ReturnStep(s, loanId, condition, today, rate, maxFine).state;
    if ReturnStep(s, loanId, condition, today, rate, maxFine).error.None? {
      ReturnMatches(s.copies, s.loans, loanId, t.loans[loanId], StatusAfter(condition));
      MembersOfLoans(s);
      SameLoansWithinLimits(s.members, s.loans, s.members, t.loans);
    }
  }

  lemma SettleKeeps(s: Shelves, loanId: string, waive: bool)
    requires Inv(s)
    ensures Inv(SettleStep(s, loanId, waive).state)
  {
    hide Matched, WithinLimits, DistinctBarcodes, OneMembership;
    var t := SettleStep(s, loanId, waive).state;
    MembersOfLoans(s);
    SameOpenLoansMatch(s.copies, s.loans, t.loans);
    SameLoansWithinLimits(s.members, s.loans, s.members, t.loans);
  }

  lemma FulfillKeeps(s: Shelves, id: string, loanId: string, copyId: string, today: int)
    requires Inv(s)
    ensures Inv(FulfillStep(s, id, loanId, copyId, today).state)
  {
    hide Matched, WithinLimits, DistinctBarcodes, OneMembership;
    if id in s.reservations && s.reservations[id].status == Pending {
      IssueKeeps(s, loanId, copyId, s.reservations[id].memberId, today);
    }
  }

  lemma ReservationRowsKeep(s: Shelves, id: string, memberId: string, bookId: string, now: int)
    requires Inv(s)
    ensures Inv(ReserveStep(s, id, memberId, bookId, now).state) && Inv(CancelStep(s, id).state)
  {
    hide Matched, WithinLimits, DistinctBarcodes, OneMembership;
  }

  lemma StepKeeps(s: Shelves, c: Command)
    requires Inv(s)
    ensures Inv(Step(s, c))
  {
    hide Inv, CreateBookStep, RemoveBookStep, CreateCopyStep, RemoveCopyStep, CreateMemberStep, SetMemberStep,
      RemoveMemberStep, IssueStep, ReturnStep, SettleStep, ReserveStep, CancelStep, FulfillStep;
    match c
    case CreateBook(id) => BooksKeep(s, id);
    case RemoveBook(id) => BooksKeep(s, id);
    case CreateCopy(b, id, code) => CreateCopyKeeps(s, b, id, code);
    case RemoveCopy(b, id) => RemoveCopyKeeps(s, b, id);
    case CreateMember(id, m, e) => CreateMemberKeeps(s, id, m, e);
    case SetMember(id, active) => SetMemberKeeps(s, id, active);
    case RemoveMember(id) => RemoveMemberKeeps(s, id);
    case Issue(l, copy, m, today) => IssueKeeps(s, l, copy, m, today);
    case Return(l, cond, today, rate, max) => ReturnKeeps(s, l, cond, today, rate, max);
    case Settle(l, w) => SettleKeeps(s, l, w);
    case Reserve(id, member, book, now) => ReservationRowsKeep(s, id, member, book, now);
    case Cancel(id) => ReservationRowsKeep(s, id, "", "", 0);
    case Fulfill(r, l, copy, today) => FulfillKeeps(s, r, l, copy, today);
  }

  /** Every run keeps copies and open loans matched one to one, every member within its limit, and keys unique. */
  lemma {:induction false} RunKeeps(cs: seq<Command>)
    ensures Inv(Run(cs))
  {
    hide Step;
    if cs != [] {
      RunKeeps(cs[..|cs| - 1]);
      StepKeeps(Run(cs[..|cs| - 1]), cs[|cs| - 1]);
    }
  }

  function OpenLoansOn(loans: map<string, Loan>, copyId: string): set<string> {
    set l | l in loans && Open(loans[l]) && loans[l].copyId == copyId
  }

  /** A copy is issued exactly when one open loan holds it, and that loan is the only one. */
  lemma IssuedHasOneOpenLoan(s: Shelves, copyId: string)
    requires Inv(s) && copyId in s.copies
    ensures |OpenLoansOn(s.loans, copyId)| == if s.copies[copyId].status == Issued then 1 else 0
  {
    if s.copies[copyId].status == Issued {
      assert HasOpenLoan(s.loans, copyId);
      var l :| OnLoan(s.loans, l, copyId);
      assert OpenLoansOn(s.loans, copyId) == {l} by {
        forall k | k in OpenLoansOn(s.loans, copyId) ensures k == l { assert OnLoan(s.loans, k, copyId); }
      }
    } else {
      assert OpenLoansOn(s.loans, copyId) == {};
    }
  }

  function CopiesOf(s: Shelves, bookId: string): set<string> { set c | c in s.copies && s.copies[c].bookId == bookId }

  function CopiesWith(s: Shelves, bookId: string, status: CopyStatus): set<string> {
    set c | c in s.copies && s.copies[c].bookId == bookId && s.copies[c].status == status
  }

  function OpenLoansOfBook(s: Shelves, bookId: string): set<string> {
    set l | l in s.loans && Open(s.loans[l]) && s.loans[l].copyId in s.copies && s.copies[s.loans[l].copyId].bookId == bookId
  }

  /** A book's issued copies are as many as its open loans. */
  lemma IssuedCopiesCount(s: Shelves, bookId: string)
    requires Inv(s)
    ensures |CopiesWith(s, bookId, Issued)| == |OpenLoansOfBook(s, bookId)|
  {
    hide WithinLimits, Referenced;
    var issued, loans := CopiesWith(s, bookId, Issued), OpenLoansOfBook(s, bookId);
    ghost var copyOf := l => if l in s.loans then s.loans[l].copyId else "";
    forall k, l | k in loans && l in loans && copyOf(k) == copyOf(l) ensures k == l {
      assert OnLoan(s.loans, k, copyOf(k)) && OnLoan(s.loans, l, copyOf(k));
    }
    ImageSize(loans, copyOf);
    forall c | c in issued ensures c in Image(loans, copyOf) {
      assert HasOpenLoan(s.loans, c);
      var l :| OnLoan(s.loans, l, c);
      assert l in loans && copyOf(l) == c;
    }
    assert Image(loans, copyOf) == issued;
  }

  lemma CopiesByStatus(s: Shelves, bookId: string)
    ensures CopiesOf(s, bookId)
            == CopiesWith(s, bookId, Available) + CopiesWith(s, bookId, Issued) + CopiesWith(s, bookId, Lost)
               + CopiesWith(s, bookId, Damaged)
    ensures CopiesWith(s, bookId, Available) !! CopiesWith(s, bookId, Issued)
            !! CopiesWith(s, bookId, Lost) !! CopiesWith(s, bookId, Damaged)
  {
  }

  /** The number of copies a book shows as available is its copies less those on loan, lost or damaged. */
  lemma AvailableCopiesCount(s: Shelves, bookId: string)
    requires Inv(s)
    ensures |CopiesWith(s, bookId, Available)|
            == |CopiesOf(s, bookId)| - |OpenLoansOfBook(s, bookId)|
               - |CopiesWith(s, bookId, Lost)| - |CopiesWith(s, bookId, Damaged)|
  {
    IssuedCopiesCount(s, bookId);
    CopiesByStatus(s, bookId);
    hide *;
    FourParts(CopiesOf(s, bookId), CopiesWith(s, bookId, Available), CopiesWith(s, bookId, Issued),
              CopiesWith(s, bookId, Lost), CopiesWith(s, bookId, Damaged));
  }

  predicate SettledFine(l: Loan) { l.fineStatus == PaidFine || l.fineStatus == WaivedFine }

  /** While a loan is open it has no fine, and once its fine is settled nothing makes it pending again. */
  ghost predicate FinesOrdered(s: Shelves) { forall l | l in s.loans && Open(s.loans[l]) :: s.loans[l].fineStatus == NoFine }

  /** Open loans have no fine, and `t` rewrites no settled loan of `s`. */
  ghost predicate FinesKept(s: Shelves, t: Shelves) {
    && FinesOrdered(t)
    && forall l | l in s.loans && SettledFine(s.loans[l]) && l in t.loans :: t.loans[l] == s.loans[l]
  }

  lemma FewerLoansKeepFines(s: Shelves, t: Shelves)
    requires FinesOrdered(s) && forall l | l in t.loans :: l in s.loans && t.loans[l] == s.loans[l]
    ensures FinesKept(s, t)
  {
  }

  lemma IssueKeepsFines(s: Shelves, loanId: string, copyId: string, memberId: string, today: int)
    requires FinesOrdered(s)
    ensures FinesKept(s, IssueStep(s, loanId, copyId, memberId, today).state)
  {
    hide OpenLoansOf;
  }

  lemma ReturnKeepsFines(s: Shelves, loanId: string, condition: Condition, today: int, rate: real, maxFine: Option<real>)
    requires FinesOrdered(s)
    ensures FinesKept(s, ReturnStep(s, loanId, condition, today, rate, maxFine).state)
    ensures FinesKept(s, SettleStep(s, loanId, true).state) && FinesKept(s, SettleStep(s, loanId, false).state)
  {
    hide CalculateFine;
  }

  lemma FulfillKeepsFines(s: Shelves, id: string, loanId: string, copyId: string, today: int)
    requires FinesOrdered(s)
    ensures FinesKept(s, FulfillStep(s, id, loanId, copyId, today).state)
  {
    hide IssueStep;
    if id in s.reservations { IssueKeepsFines(s, loanId, copyId, s.reservations[id].memberId, today); }
  }

  /** The other steps lend nothing and take nothing back: they keep loans or delete them. */
  lemma OtherStepsKeepLoans(s: Shelves, c: Command)
    requires !c.Issue? && !c.Return? && !c.Settle? && !c.Fulfill?
    ensures forall l | l in Step(s, c).loans :: l in s.loans && Step(s, c).loans[l] == s.loans[l]
  {
    hide OpenLoansOf, HasCopies, Reserved, BarcodeUsed, IsMember, IssueStep, ReturnStep, SettleStep, FulfillStep;
  }

  lemma StepKeepsFines(s: Shelves, c: Command)
    requires FinesOrdered(s)
    ensures FinesKept(s, Step(s, c))
  {
    hide CreateBookStep, RemoveBookStep, CreateCopyStep, RemoveCopyStep, CreateMemberStep, SetMemberStep,
      RemoveMemberStep, IssueStep, ReturnStep, SettleStep, ReserveStep, CancelStep, FulfillStep, FinesOrdered, FinesKept;
    match c
    case Issue(l, copy, m, today) => IssueKeepsFines(s, l, copy, m, today);
    case Return(l, cond, today, rate, max) => ReturnKeepsFines(s, l, cond, today, rate, max);
    case Settle(l, _) => ReturnKeepsFines(s, l, Fine, 0, 0.0, None);
    case Fulfill(r, l, copy, today) => FulfillKeepsFines(s, r, l, copy, today);
    case _ =>
      OtherStepsKeepLoans(s, c);
      FewerLoansKeepFines(s, Step(s, c));
  }

  lemma {:induction false} FinesOrderedAlways(cs: seq<Command>)
    ensures FinesOrdered(Run(cs))
  {
    hide Step;
    if cs != [] {
      FinesOrderedAlways(cs[..|cs| - 1]);
      StepKeepsFines(Run(cs[..|cs| - 1]), cs[|cs| - 1]);
    }
  }

  /** Over any run a settled fine stays settled for as long as the loan is kept. */
  lemma {:induction false} SettledFinesStay(cs: seq<Command>, k: nat, l: string)
    requires k <= |cs| && l in Run(cs[..k]).loans && SettledFine(Run(cs[..k]).loans[l])
    requires forall j | k <= j <= |cs| :: l in Run(cs[..j]).loans
    ensures l in Run(cs).loans && Run(cs).loans[l] == Run(cs[..k]).loans[l]
    decreases |cs|
  {
    hide Step;
    if k == |cs| {
      assert cs[..k] == cs;
    } else {
      var n := |cs| - 1;
      var before := cs[..n];
      assert forall j | 0 <= j <= n :: before[..j] == cs[..j];
      assert cs[..|cs|] == cs && l in Run(cs[..|cs|]).loans;
      SettledFinesStay(before, k, l);
      FinesOrderedAlways(before);
      StepKeepsFines(Run(before), cs[n]);
    }
  }

  /** A fine is charged exactly for a late return at a positive rate, and never above a positive cap. */
  lemma FineIsForLateness(dueAt: int, returnedAt: int, rate: real, maxFine: Option<real>)
    requires rate >= 0.0 && (maxFine.Some? ==> maxFine.value >= 0.0)
    ensures var f := CalculateFine(dueAt, returnedAt, rate, maxFine);
            && f >= 0.0
            && (f > 0.0 <==> returnedAt > dueAt && rate > 0.0)
            && (maxFine.Some? && maxFine.value > 0.0 ==> f <= maxFine.value)
  {
    if returnedAt > dueAt && rate > 0.0 {
      var days := (returnedAt - dueAt) as real;
      assert days >= 1.0;
      assert days * rate >= rate;
    }
  }

  /**
   * Returning an issued copy in good condition undoes the issue: the copies and everybody's open
   * loans are as before, and a fine is due exactly when it came back after the member's loan period.
   */
  lemma ReturnUndoesIssue(s: Shelves, loanId: string, copyId: string, memberId: string, day: int,
                          later: int, rate: real, maxFine: Option<real>)
    requires IssueStep(s, loanId, copyId, memberId, day).error == None
    requires rate >= 0.0 && (maxFine.Some? ==> maxFine.value >= 0.0)
    ensures var r := ReturnStep(IssueStep(s, loanId, copyId, memberId, day).state, loanId, Fine, later, rate, maxFine);
            && r.error == None
            && r.state.copies == s.copies
            && r.state.loans.Keys == s.loans.Keys + {loanId}
            && (forall l | l in s.loans :: r.state.loans[l] == s.loans[l])
            && (forall m :: OpenLoansOf(r.state.loans, m) == OpenLoansOf(s.loans, m))
            && (r.state.loans[loanId].fineStatus
                == if later > day + s.members[memberId].loanPeriodDays && rate > 0.0 then PendingFine else NoFine)
  {
    var due := day + s.members[memberId].loanPeriodDays;
    FineIsForLateness(due, later, rate, maxFine);
    hide CalculateFine;
    var t := IssueStep(s, loanId, copyId, memberId, day).state;
    assert t.copies[copyId := t.copies[copyId].(status := Available)] == s.copies;
  }

  // --- What each operation does for its caller.

  lemma LoanOpened(loans: map<string, Loan>, id: string, loan: Loan)
    requires id !in loans && Open(loan)
    ensures forall c :: OpenLoansOn(loans[id := loan], c) == OpenLoansOn(loans, c) + if c == loan.copyId then {id} else {}
    ensures forall m :: OpenLoansOf(loans[id := loan], m) == OpenLoansOf(loans, m) + if m == loan.memberId then {id} else {}
  {
  }

  lemma LoanClosed(loans: map<string, Loan>, id: string, loan: Loan)
    requires id in loans && Open(loans[id]) && !Open(loan)
    ensures OpenLoansOn(loans[id := loan], loans[id].copyId) == OpenLoansOn(loans, loans[id].copyId) - {id}
    ensures OpenLoansOf(loans[id := loan], loans[id].memberId) == OpenLoansOf(loans, loans[id].memberId) - {id}
    ensures id in OpenLoansOf(loans, loans[id].memberId) && id in OpenLoansOn(loans, loans[id].copyId)
  {
  }

  lemma CopyAdded(s: Shelves, id: string, copy: Copy)
    requires id !in s.copies && copy.status == Available
    ensures CopiesWith(s.(copies := s.copies[id := copy]), copy.bookId, Available) == CopiesWith(s, copy.bookId, Available) + {id}
    ensures id !in CopiesWith(s, copy.bookId, Available)
  {
  }

  lemma UnknownCopyNotLent(s: Shelves, id: string)
    requires Inv(s) && id !in s.copies
    ensures OpenLoansOn(s.loans, id) == {}
  {
  }

  /** The copy is the only one with its barcode, on nobody's loan, and one more available copy of its book. */
  ghost predicate Registered(s: Shelves, t: Shelves, bookId: string, id: string, barcode: string) {
    && (forall c :: c in t.copies && t.copies[c].barcode == barcode <==> c == id)
    && OpenLoansOn(t.loans, id) == {}
    && CopiesWith(t, bookId, Available) == CopiesWith(s, bookId, Available) + {id}
    && |CopiesWith(t, bookId, Available)| == |CopiesWith(s, bookId, Available)| + 1
  }

  lemma CreateCopyEffect(s: Shelves, bookId: string, id: string, barcode: string)
    requires Inv(s) && CreateCopyStep(s, bookId, id, barcode).error == None
    ensures var t := CreateCopyStep(s, bookId, id, barcode).state;
            Registered(s, t, bookId, id, barcode)
  {
    UnknownCopyNotLent(s, id);
    CopyAdded(s, id, Copy(bookId, barcode, Available));
    hide Inv, CopiesWith, OpenLoansOn;
  }

  /** The copy goes with its past loans only: whatever is on loan stays on loan. */
  lemma RemoveCopyEffect(s: Shelves, bookId: string, id: string)
    requires Inv(s) && RemoveCopyStep(s, bookId, id).error == None
    ensures var t := RemoveCopyStep(s, bookId, id).state;
            && id !in t.copies && (forall l | l in t.loans :: t.loans[l].copyId != id)
            && (forall c | c in s.copies && c != id :: c in t.copies && t.copies[c] == s.copies[c])
            && (forall l | l in s.loans && Open(s.loans[l]) :: l in t.loans && t.loans[l] == s.loans[l])
  {
    hide WithinLimits, Referenced, DistinctBarcodes, OneMembership;
  }

  /** The new member is the person's only membership, active, and has borrowed nothing. */
  lemma CreateMemberEffect(s: Shelves, id: string, m: Member, personExists: bool)
    requires Inv(s) && CreateMemberStep(s, id, m, personExists).error == None
    ensures var t := CreateMemberStep(s, id, m, personExists).state;
            && personExists && id in t.members && t.members[id].active && OpenLoansOf(t.loans, id) == {}
            && (forall n | n in t.members && t.members[n].memberType == m.memberType && t.members[n].personId == m.personId :: n == id)
            && (forall n | n in s.members :: n in t.members && t.members[n] == s.members[n])
  {
    hide Matched, Referenced, DistinctBarcodes, OneMembership;
  }

  /** An inactive member can be issued nothing; its loans and everybody else are as before. */
  lemma SetMemberEffect(s: Shelves, id: string, active: bool)
    requires SetMemberStep(s, id, active).error == None
    ensures var t := SetMemberStep(s, id, active).state;
            && (!active ==> forall loanId, copyId, today :: IssueStep(t, loanId, copyId, id, today).error.Some?)
            && OpenLoansOf(t.loans, id) == OpenLoansOf(s.loans, id)
            && (forall n | n in s.members && n != id :: n in t.members && t.members[n] == s.members[n])
  {
  }

  /** The copy is on this loan alone, the member has one loan more and stays within its limit, other copies are as before. */
  ghost predicate Lent(s: Shelves, t: Shelves, loanId: string, copyId: string, memberId: string) {
    && OpenLoansOn(t.loans, copyId) == {loanId}
    && loanId in t.loans && t.loans[loanId].memberId == memberId && memberId in t.members
    && OpenLoansOf(t.loans, memberId) == OpenLoansOf(s.loans, memberId) + {loanId}
    && |OpenLoansOf(s.loans, memberId)| + 1 == |OpenLoansOf(t.loans, memberId)| <= t.members[memberId].maxBooks
    && (forall c | c in s.copies && c != copyId ::
          c in t.copies && t.copies[c] == s.copies[c] && OpenLoansOn(t.loans, c) == OpenLoansOn(s.loans, c))
  }

  lemma FreshLoan(s: Shelves, loanId: string, memberId: string)
    requires loanId !in s.loans
    ensures loanId !in OpenLoansOf(s.loans, memberId)
  {
  }

  lemma NoneOnLoan(s: Shelves, copyId: string)
    requires Inv(s) && copyId in s.copies && s.copies[copyId].status != Issued
    ensures OpenLoansOn(s.loans, copyId) == {}
  {
    IssuedHasOneOpenLoan(s, copyId);
  }

  lemma IssueFinds(s: Shelves, loanId: string, copyId: string, memberId: string, today: int)
    requires IssueStep(s, loanId, copyId, memberId, today).error == None
    ensures copyId in s.copies && s.copies[copyId].status != Issued && loanId !in s.loans && memberId in s.members
    ensures |OpenLoansOf(s.loans, memberId)| < s.members[memberId].maxBooks
    ensures IssueStep(s, loanId, copyId, memberId, today).state
            == s.(loans := s.loans[loanId := NewLoan(s, copyId, memberId, today)],
                  copies := s.copies[copyId := s.copies[copyId].(status := Issued)])
  {
  }

  lemma IssueEffect(s: Shelves, loanId: string, copyId: string, memberId: string, today: int)
    requires Inv(s) && IssueStep(s, loanId, copyId, memberId, today).error == None
    ensures Lent(s, IssueStep(s, loanId, copyId, memberId, today).state, loanId, copyId, memberId)
  {
    hide Inv, OpenLoansOn, OpenLoansOf, IssueStep;
    IssueFinds(s, loanId, copyId, memberId, today);
    NoneOnLoan(s, copyId);
    LoanOpened(s.loans, loanId, NewLoan(s, copyId, memberId, today));
    FreshLoan(s, loanId, memberId);
  }

  /** A fine is due: the loan came back late and each day costs something. */
  predicate FineDue(l: Loan, today: int, rate: real) { today > l.dueAt && rate > 0.0 }

  /** The copy is on no loan and can be issued again if it is fine, the member has one loan less, and no other loan changes. */
  ghost predicate TakenBack(s: Shelves, t: Shelves, loanId: string, condition: Condition) {
    && loanId in s.loans && loanId in t.loans && s.loans[loanId].copyId in t.copies
    && OpenLoansOn(t.loans, s.loans[loanId].copyId) == {}
    && (t.copies[s.loans[loanId].copyId].status == Available <==> condition.Fine?)
    && |OpenLoansOf(t.loans, s.loans[loanId].memberId)| == |OpenLoansOf(s.loans, s.loans[loanId].memberId)| - 1
    && (forall k | k in s.loans && k != loanId :: k in t.loans && t.loans[k] == s.loans[k])
  }

  lemma OneLoanPerCopy(s: Shelves, loanId: string)
    requires Inv(s) && loanId in s.loans && Open(s.loans[loanId])
    ensures OpenLoansOn(s.loans, s.loans[loanId].copyId) == {loanId}
  {
    forall k | k in OpenLoansOn(s.loans, s.loans[loanId].copyId) ensures k == loanId {
      assert OnLoan(s.loans, k, s.loans[loanId].copyId) && OnLoan(s.loans, loanId, s.loans[loanId].copyId);
    }
  }

  /** Returning takes the copy back, with a fine pending for lateness alone. */
  lemma ReturnEffect(s: Shelves, loanId: string, condition: Condition, today: int, rate: real, maxFine: Option<real>)
    requires Inv(s) && ReturnStep(s, loanId, condition, today, rate, maxFine).error == None
    ensures var t := ReturnStep(s, loanId, condition, today, rate, maxFine).state;
            && TakenBack(s, t, loanId, condition)
            && (rate >= 0.0 && (maxFine.Some? ==> maxFine.value >= 0.0) ==>
                  (t.loans[loanId].fineStatus == PendingFine <==> FineDue(s.loans[loanId], today, rate)))
  {
    hide Inv, CalculateFine, OpenLoansOn, OpenLoansOf;
    var l := s.loans[loanId];
    OneLoanPerCopy(s, loanId);
    LoanClosed(s.loans, loanId, ReturnStep(s, loanId, condition, today, rate, maxFine).state.loans[loanId]);
    if rate >= 0.0 && (maxFine.Some? ==> maxFine.value >= 0.0) { FineIsForLateness(l.dueAt, today, rate, maxFine); }
  }

  /** The fine is settled at its amount and cannot be settled again; no other loan changes. */
  ghost predicate SettledOnce(s: Shelves, t: Shelves, loanId: string) {
    && loanId in s.loans && loanId in t.loans && SettledFine(t.loans[loanId])
    && t.loans[loanId].fineAmount == s.loans[loanId].fineAmount
    && (forall again :: SettleStep(t, loanId, again).error == Some(Conflict))
    && (forall k | k in s.loans && k != loanId :: k in t.loans && t.loans[k] == s.loans[k])
  }

  lemma SettleEffect(s: Shelves, loanId: string, waive: bool)
    requires SettleStep(s, loanId, waive).error == None
    ensures SettledOnce(s, SettleStep(s, loanId, waive).state, loanId)
  {
  }

  lemma RunNext(cs: seq<Command>, c: Command)
    ensures Run(cs + [c]) == Step(Run(cs), c)
  {
    assert (cs + [c])[..|cs|] == cs;
  }
}
