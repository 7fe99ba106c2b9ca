/** What each admissions and payment operation refuses, and what it writes to the tables. */
module AdmissionsEffects {
  import opened Wrappers
  import opened Money
  import opened Selections
  import opened Tables
  import opened FeeCalc
  import opened Admissions

  // --- Stages.

  /** The pipeline, in order. */
  function After(stage: Stage): Option<Stage> {
    match stage
    case Inquiry => Some(Application)
    case Application => Some(Documents)
    case Documents => Some(Review)
    case Review => Some(EntranceTest)
    case EntranceTest => Some(Interview)
    case Interview => Some(Acceptance)
    case Acceptance => Some(FeePayment)
    case FeePayment => Some(Enrollment)
    case Enrollment => None
  }

  /** A stage is entered from the one before it, the entrance test and fee payment with a permission, and the latter once accepted. */
  lemma TransitionRule(a: Applicant, target: Stage, permissions: set<string>)
    ensures var refused := TransitionError(a, target, permissions);
            var next := After(a.stage) == Some(target);
            var permitted := && (target.EntranceTest? ==> "admissions.review" in permissions)
                             && (target.FeePayment? ==> "admissions.approve" in permissions);
            && (refused == None <==> next && permitted && (target.FeePayment? ==> a.decision.Accepted?))
            && (refused == Some(Forbidden) <==> next && !permitted)
            && (refused.Some? ==> refused.value in {Forbidden, BadRequest})
  {
  }

  lemma InquireWrites(s: Office, classId: string, setup: Setup)
    ensures var r := InquireStep(s, classId, setup);
            && (r.error == None <==> classId in setup.classes)
            && (r.error.Some? ==> r == Outcome(s, Some(BadRequest)))
            && (r.error.None? ==>
                  && r.state == s.(applicants := r.state.applicants)
                  && r.state.applicants == s.applicants + [Applicant(Inquiry, Undecided, classId, None, None)])
  {
  }

  // --- Invoices.

  predicate Applies(f: FeeStructure, classId: string) { f.forAdmission && classId in f.classes }

  ghost predicate FirstFor(structures: seq<FeeStructure>, classId: string, i: nat) {
    i < |structures| && Applies(structures[i], classId) && forall j | 0 <= j < i :: !Applies(structures[j], classId)
  }

  /** The first admission structure for the class is used. */
  lemma {:induction false} FirstStructureIsFirst(structures: seq<FeeStructure>, classId: string, i: nat)
    requires FirstFor(structures, classId, i)
    ensures FirstStructure(structures, classId) == Some(structures[i])
  {
    if i > 0 {
      assert !Applies(structures[0], classId);
      assert FirstFor(structures[1..], classId, i - 1);
      FirstStructureIsFirst(structures[1..], classId, i - 1);
    }
  }

  /** There is none exactly when none applies. */
  lemma {:induction false} NoStructure(structures: seq<FeeStructure>, classId: string)
    ensures FirstStructure(structures, classId).None? <==> forall i | 0 <= i < |structures| :: !Applies(structures[i], classId)
  {
    if structures != [] {
      NoStructure(structures[1..], classId);
      assert structures == [structures[0]] + structures[1..];
    }
  }

  /** A new invoice is for the discounted amount with nothing paid, and overdue only if it was due before now. */
  lemma NewInvoiceIs(studentId: Option<string>, admissionId: Option<nat>, f: FeeStructure, dueDate: int, now: int)
    ensures NewInvoice(studentId, admissionId, f, dueDate, now)
            == Invoice(studentId, admissionId, ComputeDiscountedAmount(f.amount, f.rules), 0.0, dueDate,
                       if dueDate < now then Overdue else Pending)
  {
    var total := ComputeDiscountedAmount(f.amount, f.rules);
    hide ComputeDiscountedAmount;
    StatusMeaning(total, 0.0, dueDate, now);
  }

  /**
   * An update moves the application as the rule allows and may change its class to a known one. Moving
   * into fee payment creates its invoice, from the first structure for the class it had before.
   */
  lemma UpdateWrites(s: Office, id: nat, stage: Option<Stage>, newClass: Option<string>, setup: Setup)
    requires Inv(s)
    ensures var r := UpdateStep(s, id, stage, newClass, setup);
            var t := r.state;
            && (r.error == Some(NotFound) <==> id >= |s.applicants|)
            && (r.error.Some? ==> t == s)
            && (id < |s.applicants| ==>
                  var a := s.applicants[id];
                  var f := FirstStructure(setup.structures, a.classAppliedFor);
                  && (r.error == None <==>
                        && (stage.Some? ==> TransitionError(a, stage.value, setup.permissions) == None)
                        && (newClass.Some? && newClass.value != "" ==> newClass.value in setup.classes)
                        && (stage == Some(FeePayment) ==> f.Some?))
                  && (stage.Some? && TransitionError(a, stage.value, setup.permissions).Some? ==>
                        r.error == TransitionError(a, stage.value, setup.permissions))
                  && (r.error == None ==>
                        && t == s.(applicants := t.applicants, invoices := t.invoices)
                        && t.invoices == s.invoices + (if stage == Some(FeePayment)
                                                       then [NewInvoice(None, Some(id), f.value, setup.now, setup.now)] else [])
                        && PutAt(s.applicants, t.applicants, id,
                                 Applicant(if stage.Some? then stage.value else a.stage, a.decision,
                                           if newClass.Some? then newClass.value else a.classAppliedFor,
                                           if stage == Some(FeePayment) then Some(|s.invoices|) else a.admissionFeeInvoiceId,
                                           a.enrolledStudentId))))
  {
    hide NewInvoice, FirstStructure, EntryPermission;
    if id < |s.applicants| {
      assert OwnsItsInvoice(s, id);
      hide Inv;
      assert s.invoices + [] == s.invoices;
      if stage == Some(FeePayment) { TransitionRule(s.applicants[id], FeePayment, setup.permissions); }
    }
  }

  /** Rejecting needs its own permission, any other decision the one to approve. */
  lemma DecideWrites(s: Office, id: nat, decision: Decision, setup: Setup)
    ensures var r := DecideStep(s, id, decision, setup);
            && (r.error == Some(NotFound) <==> id >= |s.applicants|)
            && (r.error == None <==>
                  && id < |s.applicants|
                  && (decision.Rejected? ==> "admissions.reject" in setup.permissions)
                  && (!decision.Rejected? ==> "admissions.approve" in setup.permissions))
            && (r.error.Some? ==> r.state == s && r.error.value in {NotFound, Forbidden})
            && (r.error.None? ==>
                  var a := s.applicants[id];
                  && r.state == s.(applicants := r.state.applicants)
                  && PutAt(s.applicants, r.state.applicants, id,
                           Applicant(a.stage, decision, a.classAppliedFor, a.admissionFeeInvoiceId, a.enrolledStudentId)))
  {
  }

  lemma BillWrites(s: Office, studentId: string, classId: string, f: FeeStructure, dueDate: int, setup: Setup)
    ensures var r := BillStep(s, studentId, classId, f, dueDate, setup);
            && (r.error == None <==> studentId in s.students && classId in f.classes)
            && (r.error.Some? ==> r == Outcome(s, Some(BadRequest)))
            && (r.error.None? ==>
                  && r.state == s.(invoices := r.state.invoices)
                  && r.state.invoices == s.invoices + [NewInvoice(Some(studentId), None, f, dueDate, setup.now)])
  {
    hide NewInvoice;
  }

  // --- Payments.

  /** The amounts that stand for an invoice. */
  function Standing(payments: seq<Payment>, invoiceId: nat): seq<real> {
    if payments == [] then []
    else
      var last := payments[|payments| - 1];
      Standing(payments[..|payments| - 1], invoiceId) + if last.invoiceId == invoiceId && !last.refunded then [last.amount] else []
  }

  /** What is paid is the sum of the invoice's payments that were not refunded. */
  lemma {:induction false} PaidIsTheSum(payments: seq<Payment>, invoiceId: nat)
    ensures Selects(payments, (p: Payment) => p.invoiceId == invoiceId && !p.refunded, (p: Payment) => p.amount,
                    Standing(payments, invoiceId))
    ensures PaidTotal(payments, invoiceId) == Sum(Standing(payments, invoiceId))
  {
    hide Selects;
    var keep := (p: Payment) => p.invoiceId == invoiceId && !p.refunded;
    var project := (p: Payment) => p.amount;
    if payments == [] {
      SelectsNothing(keep, project);
    } else {
      var n := |payments| - 1;
      var was := Standing(payments[..n], invoiceId);
      PaidIsTheSum(payments[..n], invoiceId);
      SelectsOneMore(payments[..n], payments[n], keep, project, was);
      assert payments[..n] + [payments[n]] == payments;
      assert was + [] == was && (was + [payments[n].amount])[..|was|] == was;
    }
  }

  lemma {:induction false} PaidAfterRefund(payments: seq<Payment>, k: nat, j: nat)
    requires k < |payments| && !payments[k].refunded
    ensures PaidTotal(payments[k := payments[k].(refunded := true)], j)
            == PaidTotal(payments, j) - if payments[k].invoiceId == j then payments[k].amount else 0.0
  {
    var n := |payments| - 1;
    var now := payments[k := payments[k].(refunded := true)];
    if k < n {
      PaidAfterRefund(payments[..n], k, j);
      assert now[..n] == payments[..n][k := payments[k].(refunded := true)];
    } else {
      assert now[..n] == payments[..n];
    }
  }

  /** Row `j` shows what is now paid on it, and its other columns and all other rows are as before. */
  ghost predicate PaidNow(s: Office, t: Office, j: nat, paid: real, now: int) {
    j < |s.invoices| &&
    var i := s.invoices[j];
    PutAt(s.invoices, t.invoices, j,
          Invoice(i.studentId, i.admissionId, i.totalAmount, Round2(paid), i.dueDate,
                  ComputeInvoiceStatus(i.totalAmount, Round2(paid), i.dueDate, now)))
  }

  /** A payment is recorded as standing, and its invoice's paid amount grows by it. */
  lemma PayWrites(s: Office, invoiceId: nat, bodyInvoiceId: nat, amount: real, setup: Setup)
    ensures var r := PayStep(s, invoiceId, bodyInvoiceId, amount, setup);
            var t := r.state;
            && (r.error == Some(BadRequest) <==> bodyInvoiceId != invoiceId)
            && (r.error == None <==> bodyInvoiceId == invoiceId && invoiceId < |s.invoices|)
            && (r.error.Some? ==> t == s && r.error.value in {BadRequest, NotFound})
            && (r.error.None? ==>
                  && t == s.(payments := t.payments, invoices := t.invoices)
                  && t.payments == s.payments + [Payment(invoiceId, amount, setup.now, false)]
                  && PaidNow(s, t, invoiceId, PaidTotal(s.payments, invoiceId) + amount, setup.now))
  {
    var payments := s.payments + [Payment(invoiceId, amount, setup.now, false)];
    assert payments[..|s.payments|] == s.payments;
    assert PaidTotal(payments, invoiceId) == PaidTotal(s.payments, invoiceId) + amount;
    hide PaidTotal, Round2, ComputeInvoiceStatus;
  }

  /** A payment is refunded once, and its invoice's paid amount falls by it. */
  lemma RefundWrites(s: Office, id: nat, setup: Setup)
    requires Inv(s)
    ensures var r := RefundStep(s, id, setup);
            var t := r.state;
            && (r.error == Some(NotFound) <==> id >= |s.payments|)
            && (r.error == None <==> id < |s.payments| && !s.payments[id].refunded)
            && (r.error.Some? ==> t == s && r.error.value in {NotFound, Conflict})
            && (r.error.None? ==>
                  var p := s.payments[id];
                  && t == s.(payments := t.payments, invoices := t.invoices)
                  && PutAt(s.payments, t.payments, id, Payment(p.invoiceId, p.amount, p.paidAt, true))
                  && PaidNow(s, t, p.invoiceId, PaidTotal(s.payments, p.invoiceId) - p.amount, setup.now))
  {
    hide Inv, PaidTotal, Round2, ComputeInvoiceStatus;
    PaymentsInRange(s);
    if id < |s.payments| && !s.payments[id].refunded { PaidAfterRefund(s.payments, id, s.payments[id].invoiceId); }
  }

  // --- Enrollment.

  /** Enrolling adds the student, names it on the application and on that application's invoices, and changes nothing else. */
  lemma EnrollWrites(s: Office, id: nat, studentId: string, setup: Setup)
    ensures var r := EnrollStep(s, id, studentId, setup);
            var t := r.state;
            && (r.error == Some(NotFound) <==> id >= |s.applicants|)
            && (id < |s.applicants| && (!s.applicants[id].stage.Enrollment? || s.applicants[id].enrolledStudentId.Some?) ==>
                  r.error == Some(if s.applicants[id].stage.Enrollment? then Conflict else BadRequest))
            && (r.error.Some? ==> t == s && r.error.value in {NotFound, BadRequest, Conflict})
            && (r.error.None? ==>
                  var a := s.applicants[id];
                  && t.students == s.students + {studentId} && t.payments == s.payments
                  && PutAt(s.applicants, t.applicants, id,
                           Applicant(a.stage, a.decision, a.classAppliedFor, a.admissionFeeInvoiceId, Some(studentId)))
                  && |t.invoices| == |s.invoices|
                  && forall j | 0 <= j < |s.invoices| ::
                       t.invoices[j] == if s.invoices[j].admissionId == Some(id)
                                        then s.invoices[j].(studentId := Some(studentId)) else s.invoices[j])
  {
    hide InvoicePaid;
  }
}
