/**
 * The admissions pipeline and the fee that gates it: nine stages, a decision, an admission invoice
 * with payments and refunds, and enrollment. Applications, invoices and payments are named by row number.
 */
module Admissions {
  import opened Wrappers
  import opened Money
  import opened FeeCalc
  import Outstanding

  datatype Stage =
    | Inquiry | Application | Documents | Review | EntranceTest | Interview | Acceptance | FeePayment | Enrollment

  datatype Decision = Undecided | Accepted | Rejected | Waitlisted

  datatype Applicant = Applicant(
    stage: Stage, decision: Decision, classAppliedFor: string,
    admissionFeeInvoiceId: Option<nat>, enrolledStudentId: Option<string>)

  datatype FeeStructure = FeeStructure(forAdmission: bool, classes: set<string>, amount: real, rules: seq<DiscountRule>)

  datatype Office = Office(
    applicants: seq<Applicant>, invoices: seq<Invoice>, payments: seq<Payment>, students: set<string>)

  /** What the rest of the school looks like at the moment of a call. */
  datatype Setup = Setup(
    classes: set<string>, structures: seq<FeeStructure>, classesWithSections: set<string>, hasAcademicYear: bool,
    permissions: set<string>, now: int)

  datatype Outcome = Outcome(state: Office, error: Option<Error>)

  function Fail(s: Office, e: Error): Outcome { Outcome(s, Some(e)) }

  function StageIndex(stage: Stage): nat {
    match stage
    case Inquiry => 0 case Application => 1 case Documents => 2 case Review => 3 case EntranceTest => 4
    case Interview => 5 case Acceptance => 6 case FeePayment => 7 case Enrollment => 8
  }

  function EntryPermission(stage: Stage): Option<string> {
    match stage
    case EntranceTest => Some("admissions.review")
    case FeePayment => Some("admissions.approve")
    case _ => None
  }

  function TransitionError(a: Applicant, target: Stage, permissions: set<string>): Option<Error> {
    var needed := EntryPermission(target);
    if StageIndex(target) != StageIndex(a.stage) + 1 then Some(BadRequest)
    else if needed.Some? && needed.value !in permissions then Some(Forbidden)
    else if target == FeePayment && a.decision != Accepted then Some(BadRequest)
    else None
  }

  // --- Invoices.

  function FirstStructure(structures: seq<FeeStructure>, classId: string): Option<FeeStructure> {
    if structures == [] then None
    else if structures[0].forAdmission && classId in structures[0].classes then Some(structures[0])
    else FirstStructure(structures[1..], classId)
  }

  function NewInvoice(studentId: Option<string>, admissionId: Option<nat>, f: FeeStructure, dueDate: int, now: int): Invoice {
    var total := ComputeDiscountedAmount(f.amount, f.rules);
    Invoice(studentId, admissionId, total, 0.0, dueDate, ComputeInvoiceStatus(total, 0.0, dueDate, now))
  }

  /** The sum of an invoice's payments that were not refunded. */
  function PaidTotal(payments: seq<Payment>, invoiceId: nat): real {
    if payments == [] then 0.0
    else
      var last := payments[|payments| - 1];
      PaidTotal(payments[..|payments| - 1], invoiceId)
      + if last.invoiceId == invoiceId && !last.refunded then last.amount else 0.0
  }

  function Recomputed(invoices: seq<Invoice>, payments: seq<Payment>, id: nat, now: int): seq<Invoice>
    requires id < |invoices|
  {
    var paid := Round2(PaidTotal(payments, id));
    var i := invoices[id];
    invoices[id := i.(paidAmount := paid, status := ComputeInvoiceStatus(i.totalAmount, paid, i.dueDate, now))]
  }

  function Reconciled(invoices: seq<Invoice>, admissionId: nat, studentId: string): seq<Invoice> {
    seq(|invoices|, i requires 0 <= i < |invoices| =>
      if invoices[i].admissionId == Some(admissionId) then invoices[i].(studentId := Some(studentId)) else invoices[i])
  }

  // --- The operations.

  function InquireStep(s: Office, classId: string, setup: Setup): Outcome {
    if classId !in setup.classes then Fail(s, BadRequest)
    else Outcome(s.(applicants := s.applicants + [Applicant(Inquiry, Undecided, classId, None, None)]), None)
  }

  /** The admission invoice of an applicant entering fee payment: the one it has, or a new one. */
  function AdmissionInvoice(s: Office, id: nat, setup: Setup): (Office, Option<nat>)
    requires id < |s.applicants|
  {
    var a := s.applicants[id];
    if a.admissionFeeInvoiceId.Some? && a.admissionFeeInvoiceId.value < |s.invoices| then (s, a.admissionFeeInvoiceId)
    else
      var f := FirstStructure(setup.structures, a.classAppliedFor);
      if f.None? then (s, None)
      else (s.(invoices := s.invoices + [NewInvoice(None, Some(id), f.value, setup.now, setup.now)]), Some(|s.invoices|))
  }

  function Moved(a: Applicant, stage: Option<Stage>, invoice: Option<nat>, newClass: Option<string>): Applicant {
    a.(stage := if stage.Some? then stage.value else a.stage,
       admissionFeeInvoiceId := if invoice.Some? then invoice else a.admissionFeeInvoiceId,
       classAppliedFor := if newClass.Some? then newClass.value else a.classAppliedFor)
  }

  function UpdateStep(s: Office, id: nat, stage: Option<Stage>, newClass: Option<string>, setup: Setup): Outcome {
    if id >= |s.applicants| then Fail(s, NotFound)
    else
      var a := s.applicants[id];
      var refused := if stage.Some? then TransitionError(a, stage.value, setup.permissions) else None;
      if refused.Some? then Fail(s, refused.value)
      else if newClass.Some? && newClass.value != "" && newClass.value !in setup.classes then Fail(s, BadRequest)
      else if stage == Some(FeePayment) then
        var (t, invoice) := AdmissionInvoice(s, id, setup);
        if invoice.None? then Fail(s, BadRequest)
        else Outcome(t.(applicants := t.applicants[id := Moved(a, stage, invoice, newClass)]), None)
      else Outcome(s.(applicants := s.applicants[id := Moved(a, stage, None, newClass)]), None)
  }

  function DecideStep(s: Office, id: nat, decision: Decision, setup: Setup): Outcome {
    if id >= |s.applicants| then Fail(s, NotFound)
    else if (if decision == Rejected then "admissions.reject" else "admissions.approve") !in setup.permissions
    then Fail(s, Forbidden)
    else Outcome(s.(applicants := s.applicants[id := s.applicants[id].(decision := decision)]), None)
  }

  /** Billing a student, whose class is `classId`, by a fee structure that applies to it. */
  function BillStep(s: Office, studentId: string, classId: string, f: FeeStructure, dueDate: int, setup: Setup): Outcome {
    if studentId !in s.students || classId !in f.classes then Fail(s, BadRequest)
    else Outcome(s.(invoices := s.invoices + [NewInvoice(Some(studentId), None, f, dueDate, setup.now)]), None)
  }

  function PayStep(s: Office, invoiceId: nat, bodyInvoiceId: nat, amount: real, setup: Setup): Outcome {
    if bodyInvoiceId != invoiceId then Fail(s, BadRequest)
    else if invoiceId >= |s.invoices| then Fail(s, NotFound)
    else
      var payments := s.payments + [Payment(invoiceId, amount, setup.now, false)];
      Outcome(s.(payments := payments, invoices := Recomputed(s.invoices, payments, invoiceId, setup.now)), None)
  }

  function RefundStep(s: Office, id: nat, setup: Setup): Outcome {
    if id >= |s.payments| then Fail(s, NotFound)
    else if s.payments[id].refunded then Fail(s, Conflict)
    else
      var payments := s.payments[id := s.payments[id].(refunded := true)];
      var invoiceId := s.payments[id].invoiceId;
      if invoiceId >= |s.invoices| then Fail(s, NotFound)
      else Outcome(s.(payments := payments, invoices := Recomputed(s.invoices, payments, invoiceId, setup.now)), None)
  }

  predicate InvoicePaid(s: Office, id: Option<nat>) {
    id.Some? && id.value < |s.invoices| && s.invoices[id.value].status == PaidUp
  }

  /** `studentId` is the identifier generated for the new student; one already taken violates the primary key. */
  function EnrollStep(s: Office, id: nat, studentId: string, setup: Setup): Outcome {
    if id >= |s.applicants| then Fail(s, NotFound)
    else
      var a := s.applicants[id];
      if a.stage != Enrollment then Fail(s, BadRequest)
      else if a.enrolledStudentId.Some? then Fail(s, Conflict)
      else if !InvoicePaid(s, a.admissionFeeInvoiceId) then Fail(s, BadRequest)
      else if a.classAppliedFor !in setup.classesWithSections then Fail(s, BadRequest)
      else if !setup.hasAcademicYear then Fail(s, BadRequest)
      else if studentId in s.students then Fail(s, Conflict)
      else Outcome(
        Office(s.applicants[id := a.(enrolledStudentId := Some(studentId))],
               Reconciled(s.invoices, id, studentId),
               s.payments,
               s.students + {studentId}),
        None)
  }

  // --- Runs.

  datatype Command =
    | Inquire(classId: string)
    | Update(id: nat, stage: Option<Stage>, newClass: Option<string>)
    | Decide(id: nat, decision: Decision)
    | Bill(studentId: string, classId: string, structure: FeeStructure, dueDate: int)
    | Pay(invoiceId: nat, bodyInvoiceId: nat, amount: real)
    | Refund(paymentId: nat)
    | Enroll(id: nat, newStudentId: string)

  datatype Event = Event(command: Command, setup: Setup)

  function Step(s: Office, e: Event): Office {
    match e.command
    case Inquire(c) => InquireStep(s, c, e.setup).state
    case Update(id, stage, newClass) => UpdateStep(s, id, stage, newClass, e.setup).state
    case Decide(id, d) => DecideStep(s, id, d, e.setup).state
    case Bill(student, c, f, due) => BillStep(s, student, c, f, due, e.setup).state
    case Pay(i, b, amount) => PayStep(s, i, b, amount, e.setup).state
    case Refund(p) => RefundStep(s, p, e.setup).state
    case Enroll(id, student) => EnrollStep(s, id, student, e.setup).state
  }

  function Run(es: seq<Event>): Office {
    if es == [] then Office([], [], [], {}) else Step(Run(es[..|es| - 1]), es[|es| - 1])
  }

  // --- What every run keeps.

  /** Before fee payment an applicant owns no admission invoice; from then on exactly the one it names. */
  ghost predicate OwnsItsInvoice(s: Office, id: nat)
    requires id < |s.applicants|
  {
    var a := s.applicants[id];
    if StageIndex(a.stage) < StageIndex(FeePayment) then
      a.admissionFeeInvoiceId == None && forall j | 0 <= j < |s.invoices| :: s.invoices[j].admissionId != Some(id)
    else
      && a.admissionFeeInvoiceId.Some?
      && a.admissionFeeInvoiceId.value < |s.invoices|
      && forall j | 0 <= j < |s.invoices| :: s.invoices[j].admissionId == Some(id) <==> j == a.admissionFeeInvoiceId.value
  }

  /** An invoice is for whole cents, its paid amount is the 2dp sum of its standing payments, and it is paid up just when that covers a positive total. */
  predicate Settled(s: Office, j: nat)
    requires j < |s.invoices|
  {
    && WholeCents(s.invoices[j].totalAmount)
    && s.invoices[j].paidAmount == Round2(PaidTotal(s.payments, j))
    && (s.invoices[j].status == PaidUp <==>
        s.invoices[j].totalAmount > 0.0 && Round2(PaidTotal(s.payments, j)) >= s.invoices[j].totalAmount)
  }

  /** An enrolled applicant is at the last stage, and its invoice is its student's. */
  ghost predicate EnrolledWell(s: Office, id: nat)
    requires id < |s.applicants|
  {
    var a := s.applicants[id];
    a.enrolledStudentId.Some? ==>
      && a.stage == Enrollment
      && a.enrolledStudentId.value in s.students
      && a.admissionFeeInvoiceId.Some? && a.admissionFeeInvoiceId.value < |s.invoices|
      && s.invoices[a.admissionFeeInvoiceId.value].studentId == a.enrolledStudentId
  }

  /** An invoice is for a student of the school or for an application. */
  predicate BilledToSomeone(i: Invoice, students: set<string>) {
    if i.studentId.Some? then i.studentId.value in students else i.admissionId.Some?
  }

  ghost predicate Inv(s: Office) {
    && (forall id: nat | id < |s.applicants| :: OwnsItsInvoice(s, id) && EnrolledWell(s, id))
    && (forall j: nat | j < |s.invoices| :: Settled(s, j))
    && (forall j | 0 <= j < |s.invoices| && s.invoices[j].admissionId.Some? :: s.invoices[j].admissionId.value < |s.applicants|)
    && (forall k | 0 <= k < |s.payments| :: s.payments[k].invoiceId < |s.invoices|)
    && (forall j | 0 <= j < |s.invoices| :: BilledToSomeone(s.invoices[j], s.students))
    && (forall i, j | 0 <= i < j < |s.applicants| && s.applicants[i].enrolledStudentId.Some? ::
          s.applicants[i].enrolledStudentId != s.applicants[j].enrolledStudentId)
  }

  lemma {:induction false} NoPayments(payments: seq<Payment>, j: nat)
    requires forall k | 0 <= k < |payments| :: payments[k].invoiceId != j
    ensures PaidTotal(payments, j) == 0.0
  {
    if payments != [] { NoPayments(payments[..|payments| - 1], j); }
  }

  lemma {:induction false} OtherPaymentsAlone(p: seq<Payment>, q: seq<Payment>, j: nat)
    requires |p| == |q|
    requires forall k | 0 <= k < |p| :: p[k] == q[k] || (p[k].invoiceId != j && q[k].invoiceId != j)
    ensures PaidTotal(p, j) == PaidTotal(q, j)
  {
    if p != [] { OtherPaymentsAlone(p[..|p| - 1], q[..|q| - 1], j); }
  }

  lemma NewInvoiceSettled(s: Office, i: Invoice)
    requires Inv(s) && i.paidAmount == 0.0 && i.status != PaidUp && WholeCents(i.totalAmount)
    ensures var t := s.(invoices := s.invoices + [i]);
            forall j: nat | j < |t.invoices| :: Settled(t, j)
  {
    hide Round2, OwnsItsInvoice, EnrolledWell;
    var t := s.(invoices := s.invoices + [i]);
    NoPayments(s.payments, |s.invoices|);
    ZeroCents();
    forall j: nat | j < |t.invoices|
      ensures Settled(t, j)
    {
      if j < |s.invoices| { assert Settled(s, j); }
    }
  }

  lemma NewInvoiceUnpaid(studentId: Option<string>, admissionId: Option<nat>, f: FeeStructure, dueDate: int, now: int)
    ensures NewInvoice(studentId, admissionId, f, dueDate, now).status != PaidUp
    ensures WholeCents(NewInvoice(studentId, admissionId, f, dueDate, now).totalAmount)
  {
    var exact := f.amount - TotalDiscount(f.amount, f.rules);
    Round2Near(exact);
    CentsClosed(Round2(exact), Round2(exact));
    hide Round2, WholeCents, TotalDiscount;
  }

  /** Recomputing an invoice after its payments changed settles it and leaves the others settled. */
  lemma RecomputedSettles(s: Office, payments: seq<Payment>, id: nat, now: int)
    requires Inv(s) && id < |s.invoices|
    requires |s.payments| <= |payments|
    requires forall j: nat | j < |s.invoices| && j != id :: PaidTotal(payments, j) == PaidTotal(s.payments, j)
    requires forall k | 0 <= k < |payments| :: payments[k].invoiceId < |s.invoices|
    ensures Inv(s.(payments := payments, invoices := Recomputed(s.invoices, payments, id, now)))
  {
    hide Round2, PaidTotal;
    var t := s.(payments := payments, invoices := Recomputed(s.invoices, payments, id, now));
    forall a: nat | a < |t.applicants|
      ensures OwnsItsInvoice(t, a) && EnrolledWell(t, a)
    {
      assert OwnsItsInvoice(s, a) && EnrolledWell(s, a);
    }
    forall j: nat | j < |t.invoices|
      ensures Settled(t, j)
    {
      assert Settled(s, j);
    }
  }

  lemma PaymentsInRange(s: Office)
    requires Inv(s)
    ensures forall k | 0 <= k < |s.payments| :: s.payments[k].invoiceId < |s.invoices|
  {
  }

  lemma PayKeeps(s: Office, invoiceId: nat, bodyInvoiceId: nat, amount: real, setup: Setup)
    requires Inv(s)
    ensures Inv(PayStep(s, invoiceId, bodyInvoiceId, amount, setup).state)
  {
    hide Inv;
    if bodyInvoiceId == invoiceId && invoiceId < |s.invoices| {
      var payments := s.payments + [Payment(invoiceId, amount, setup.now, false)];
      assert payments[..|s.payments|] == s.payments;
      PaymentsInRange(s);
      RecomputedSettles(s, payments, invoiceId, setup.now);
    }
  }

  lemma RefundKeeps(s: Office, id: nat, setup: Setup)
    requires Inv(s)
    ensures Inv(RefundStep(s, id, setup).state)
  {
    hide Inv, PaidTotal;
    if id < |s.payments| && !s.payments[id].refunded {
      var payments := s.payments[id := s.payments[id].(refunded := true)];
      PaymentsInRange(s);
      forall j: nat | j < |s.invoices| && j != s.payments[id].invoiceId
        ensures PaidTotal(payments, j) == PaidTotal(s.payments, j)
      {
        OtherPaymentsAlone(payments, s.payments, j);
      }
      RecomputedSettles(s, payments, s.payments[id].invoiceId, setup.now);
    }
  }

  lemma NewInvoiceParts(studentId: Option<string>, admissionId: Option<nat>, f: FeeStructure, dueDate: int, now: int)
    ensures var i := NewInvoice(studentId, admissionId, f, dueDate, now);
            i.paidAmount == 0.0 && i.studentId == studentId && i.admissionId == admissionId
  {
  }

  lemma BillKeeps(s: Office, studentId: string, classId: string, f: FeeStructure, dueDate: int, setup: Setup)
    requires Inv(s)
    ensures Inv(BillStep(s, studentId, classId, f, dueDate, setup).state)
  {
    hide Settled, NewInvoice;
    if studentId in s.students {
      var i := NewInvoice(Some(studentId), None, f, dueDate, setup.now);
      NewInvoiceUnpaid(Some(studentId), None, f, dueDate, setup.now);
      NewInvoiceParts(Some(studentId), None, f, dueDate, setup.now);
      NewInvoiceSettled(s, i);
      var t := s.(invoices := s.invoices + [i]);
      forall a: nat | a < |t.applicants| ensures OwnsItsInvoice(t, a) && EnrolledWell(t, a) {
        assert OwnsItsInvoice(s, a) && EnrolledWell(s, a);
      }
    }
  }

  lemma SettledAlike(s: Office, t: Office)
    requires s.payments == t.payments && |s.invoices| == |t.invoices|
    requires forall j: nat | j < |s.invoices| :: s.invoices[j].(studentId := None) == t.invoices[j].(studentId := None)
    requires forall j: nat | j < |s.invoices| :: Settled(s, j)
    ensures forall j: nat | j < |t.invoices| :: Settled(t, j)
  {
    forall j: nat | j < |t.invoices| ensures Settled(t, j) {
      assert Settled(s, j) && s.invoices[j].(studentId := None) == t.invoices[j].(studentId := None);
    }
  }

  lemma InquireKeeps(s: Office, classId: string, setup: Setup)
    requires Inv(s)
    ensures Inv(InquireStep(s, classId, setup).state)
  {
    hide Settled;
    var t := InquireStep(s, classId, setup).state;
    forall a: nat | a < |t.applicants| ensures OwnsItsInvoice(t, a) && EnrolledWell(t, a) {
      if a < |s.applicants| { assert OwnsItsInvoice(s, a) && EnrolledWell(s, a); }
    }
    SettledAlike(s, t);
  }

  /** Changing one applicant without touching its enrollment keeps what holds of the others. */
  lemma ApplicantChangeKeeps(s: Office, id: nat, a: Applicant)
    requires Inv(s) && id < |s.applicants|
    requires a.enrolledStudentId == s.applicants[id].enrolledStudentId
    requires a.admissionFeeInvoiceId == s.applicants[id].admissionFeeInvoiceId
    requires StageIndex(a.stage) >= StageIndex(s.applicants[id].stage)
    requires StageIndex(a.stage) < StageIndex(FeePayment) || StageIndex(s.applicants[id].stage) >= StageIndex(FeePayment)
    ensures Inv(s.(applicants := s.applicants[id := a]))
  {
    hide Settled;
    var t := s.(applicants := s.applicants[id := a]);
    forall b: nat | b < |t.applicants| ensures OwnsItsInvoice(t, b) && EnrolledWell(t, b) {
      assert OwnsItsInvoice(s, b) && EnrolledWell(s, b);
    }
    SettledAlike(s, t);
  }

  lemma FeePaymentKeeps(s: Office, id: nat, newClass: Option<string>, f: FeeStructure, now: int)
    requires Inv(s) && id < |s.applicants| && s.applicants[id].stage == Acceptance
    ensures Inv(s.(invoices := s.invoices + [NewInvoice(None, Some(id), f, now, now)],
                   applicants := s.applicants[id := Moved(s.applicants[id], Some(FeePayment), Some(|s.invoices|), newClass)]))
  {
    hide Settled, NewInvoice;
    var i := NewInvoice(None, Some(id), f, now, now);
    NewInvoiceUnpaid(None, Some(id), f, now, now);
    NewInvoiceParts(None, Some(id), f, now, now);
    NewInvoiceSettled(s, i);
    var u := s.(invoices := s.invoices + [i]);
    var t := u.(applicants := s.applicants[id := Moved(s.applicants[id], Some(FeePayment), Some(|s.invoices|), newClass)]);
    SettledAlike(u, t);
    forall b: nat | b < |t.applicants| ensures OwnsItsInvoice(t, b) && EnrolledWell(t, b) {
      assert OwnsItsInvoice(s, b) && EnrolledWell(s, b);
    }
  }

  lemma UpdateKeeps(s: Office, id: nat, stage: Option<Stage>, newClass: Option<string>, setup: Setup)
    requires Inv(s)
    ensures Inv(UpdateStep(s, id, stage, newClass, setup).state)
  {
    var r := UpdateStep(s, id, stage, newClass, setup);
    if r.error.None? {
      var a := s.applicants[id];
      assert OwnsItsInvoice(s, id);
      hide Inv, NewInvoice;
      if stage == Some(FeePayment) {
        FeePaymentKeeps(s, id, newClass, FirstStructure(setup.structures, a.classAppliedFor).value, setup.now);
      } else {
        ApplicantChangeKeeps(s, id, Moved(a, stage, None, newClass));
      }
    }
  }

  lemma DecideKeeps(s: Office, id: nat, decision: Decision, setup: Setup)
    requires Inv(s)
    ensures Inv(DecideStep(s, id, decision, setup).state)
  {
    hide Inv;
    if id < |s.applicants| { ApplicantChangeKeeps(s, id, s.applicants[id].(decision := decision)); }
  }

  lemma EnrollKeeps(s: Office, id: nat, studentId: string, setup: Setup)
    requires Inv(s)
    ensures Inv(EnrollStep(s, id, studentId, setup).state)
  {
    hide Settled;
    var r := EnrollStep(s, id, studentId, setup);
    var t := r.state;
    if r.error.None? {
      SettledAlike(s, t);
      forall b: nat | b < |t.applicants| ensures OwnsItsInvoice(t, b) && EnrolledWell(t, b) {
        assert OwnsItsInvoice(s, b) && EnrolledWell(s, b);
        assert OwnsItsInvoice(s, id);
      }
      forall b: nat | b < |s.applicants| ensures s.applicants[b].enrolledStudentId != Some(studentId) {
        assert EnrolledWell(s, b);
      }
    }
  }

  lemma StepKeeps(s: Office, e: Event)
    requires Inv(s)
    ensures Inv(Step(s, e))
  {
    hide Inv, InquireStep, UpdateStep, DecideStep, BillStep, PayStep, RefundStep, EnrollStep;
    match e.command
    case Inquire(c) => InquireKeeps(s, c, e.setup);
    case Update(id, stage, newClass) => UpdateKeeps(s, id, stage, newClass, e.setup);
    case Decide(id, d) => DecideKeeps(s, id, d, e.setup);
    case Bill(student, c, f, due) => BillKeeps(s, student, c, f, due, e.setup);
    case Pay(i, b, amount) => PayKeeps(s, i, b, amount, e.setup);
    case Refund(p) => RefundKeeps(s, p, e.setup);
    case Enroll(id, student) => EnrollKeeps(s, id, student, e.setup);
  }

  /** Every run keeps invoices owned, settled and reconciled as above. */
  lemma {:induction false} RunKeeps(es: seq<Event>)
    ensures Inv(Run(es))
  {
    hide Step;
    if es != [] {
      RunKeeps(es[..|es| - 1]);
      StepKeeps(Run(es[..|es| - 1]), es[|es| - 1]);
    }
  }

  // --- How an application may move.

  /** The standing payments of the applicant's admission invoice cover its positive total. */
  ghost predicate FeeCovered(s: Office, a: Applicant) {
    && a.admissionFeeInvoiceId.Some? && a.admissionFeeInvoiceId.value < |s.invoices|
    && s.invoices[a.admissionFeeInvoiceId.value].totalAmount > 0.0
    && Round2(PaidTotal(s.payments, a.admissionFeeInvoiceId.value)) >= s.invoices[a.admissionFeeInvoiceId.value].totalAmount
  }

  /** One step moves an application at most one stage forward, into fee payment only when accepted, and enrolls it only paid. */
  ghost predicate AllowedMove(s: Office, t: Office, id: nat)
    requires id < |s.applicants| && id < |t.applicants|
  {
    var a, b := s.applicants[id], t.applicants[id];
    && StageIndex(a.stage) <= StageIndex(b.stage) <= StageIndex(a.stage) + 1
    && (a.stage != FeePayment && b.stage == FeePayment ==> a.stage == Acceptance && a.decision == Accepted)
    && (a.admissionFeeInvoiceId.Some? ==> b.admissionFeeInvoiceId == a.admissionFeeInvoiceId)
    && (a.enrolledStudentId.Some? ==> b.enrolledStudentId == a.enrolledStudentId)
    && (a.enrolledStudentId.None? && b.enrolledStudentId.Some? ==> a.stage == Enrollment && FeeCovered(s, a))
  }

  lemma UpdateAllowed(s: Office, k: nat, stage: Option<Stage>, newClass: Option<string>, setup: Setup, id: nat)
    requires Inv(s) && id < |s.applicants|
    ensures var t := UpdateStep(s, k, stage, newClass, setup).state;
            id < |t.applicants| && AllowedMove(s, t, id)
  {
    hide NewInvoice, FirstStructure, FeeCovered;
    assert OwnsItsInvoice(s, id);
  }

  lemma EnrollAllowed(s: Office, k: nat, studentId: string, setup: Setup, id: nat)
    requires Inv(s) && id < |s.applicants|
    ensures var t := EnrollStep(s, k, studentId, setup).state;
            id < |t.applicants| && AllowedMove(s, t, id)
  {
    hide Round2, PaidTotal, Reconciled;
    assert OwnsItsInvoice(s, id);
    if k == id && EnrollStep(s, k, studentId, setup).error.None? {
      assert Settled(s, s.applicants[id].admissionFeeInvoiceId.value);
    }
  }

  lemma StepAllowed(s: Office, e: Event, id: nat)
    requires Inv(s) && id < |s.applicants|
    ensures id < |Step(s, e).applicants| && AllowedMove(s, Step(s, e), id)
  {
    hide Inv, UpdateStep, EnrollStep, NewInvoice, Recomputed, FeeCovered;
    match e.command
    case Update(k, stage, newClass) => UpdateAllowed(s, k, stage, newClass, e.setup, id);
    case Enroll(k, student) => EnrollAllowed(s, k, student, e.setup, id);
    case Inquire(_) =>
    case Decide(_, _) =>
    case Bill(_, _, _, _) =>
    case Pay(_, _, _) =>
    case Refund(_) =>
  }

  lemma NewcomersAreInquiries(s: Office, e: Event, id: nat)
    requires id < |Step(s, e).applicants|
    ensures |s.applicants| <= id ==>
              Step(s, e).applicants[id].enrolledStudentId.None? && Step(s, e).applicants[id].stage == Inquiry
  {
  }

  /** An enrolled application was enrolled by one step of the run, in a state where its fee was covered, and keeps that student. */
  lemma {:induction false} EnrolledOncePaid(es: seq<Event>, id: nat) returns (k: nat)
    requires id < |Run(es).applicants| && Run(es).applicants[id].enrolledStudentId.Some?
    ensures k < |es| && id < |Run(es[..k]).applicants| && id < |Run(es[..k + 1]).applicants|
    ensures Run(es[..k]).applicants[id].enrolledStudentId == None
    ensures Run(es[..k]).applicants[id].stage == Enrollment && FeeCovered(Run(es[..k]), Run(es[..k]).applicants[id])
    ensures Run(es[..k + 1]).applicants[id].enrolledStudentId == Run(es).applicants[id].enrolledStudentId
  {
    hide Step, FeeCovered;
    var n := |es| - 1;
    var before := es[..n];
    RunKeeps(before);
    assert es[..n + 1] == es;
    NewcomersAreInquiries(Run(before), es[n], id);
    StepAllowed(Run(before), es[n], id);
    if Run(before).applicants[id].enrolledStudentId.Some? {
      k := EnrolledOncePaid(before, id);
      assert before[..k] == es[..k] && before[..k + 1] == es[..k + 1];
    } else {
      k := n;
    }
  }

  /** An application past acceptance entered fee payment in a state where it was accepted. */
  lemma {:induction false} FeePaymentOnceAccepted(es: seq<Event>, id: nat) returns (k: nat)
    requires id < |Run(es).applicants| && StageIndex(Run(es).applicants[id].stage) >= StageIndex(FeePayment)
    ensures k < |es| && id < |Run(es[..k]).applicants| && id < |Run(es[..k + 1]).applicants|
    ensures Run(es[..k]).applicants[id].stage == Acceptance && Run(es[..k]).applicants[id].decision == Accepted
    ensures Run(es[..k + 1]).applicants[id].stage == FeePayment
  {
    hide Step, FeeCovered;
    var n := |es| - 1;
    var before := es[..n];
    RunKeeps(before);
    assert es[..n + 1] == es;
    NewcomersAreInquiries(Run(before), es[n], id);
    StepAllowed(Run(before), es[n], id);
    if StageIndex(Run(before).applicants[id].stage) >= StageIndex(FeePayment) {
      k := FeePaymentOnceAccepted(before, id);
      assert before[..k] == es[..k] && before[..k + 1] == es[..k + 1];
    } else {
      k := n;
    }
  }

  /**
   * Enrolling succeeds exactly for an applicant at the last stage, not yet enrolled, whose standing
   * payments cover a positive fee, given a section, an academic year and a fresh student id. So a free
   * admission, whose invoice totals zero, can never be enrolled.
   */
  lemma EnrollsExactlyWhenPaid(s: Office, id: nat, studentId: string, setup: Setup)
    requires Inv(s) && id < |s.applicants|
    ensures EnrollStep(s, id, studentId, setup).error == None
            <==> && s.applicants[id].stage == Enrollment && s.applicants[id].enrolledStudentId == None
                 && FeeCovered(s, s.applicants[id])
                 && s.applicants[id].classAppliedFor in setup.classesWithSections && setup.hasAcademicYear
                 && studentId !in s.students
  {
    hide Round2, PaidTotal;
    assert OwnsItsInvoice(s, id);
    if s.applicants[id].stage == Enrollment { assert Settled(s, s.applicants[id].admissionFeeInvoiceId.value); }
  }

  lemma RefundedAddsNothing(payments: seq<Payment>, refunded: Payment, j: nat)
    requires refunded.refunded
    ensures PaidTotal(payments + [refunded], j) == PaidTotal(payments, j)
  {
    assert (payments + [refunded])[..|payments|] == payments;
  }

  /** Refunding a payment undoes it: every invoice's paid amount is what it was, and it is paid up just if it was. */
  lemma RefundUndoesPayment(s: Office, invoiceId: nat, amount: real, setup: Setup)
    requires Inv(s) && invoiceId < |s.invoices|
    ensures var t := PayStep(s, invoiceId, invoiceId, amount, setup).state;
            var r := RefundStep(t, |s.payments|, setup);
            && r.error == None && |r.state.invoices| == |s.invoices|
            && r.state.applicants == s.applicants && r.state.students == s.students
            && forall j: nat | j < |s.invoices| ::
                 && r.state.invoices[j].paidAmount == s.invoices[j].paidAmount
                 && (r.state.invoices[j].status == PaidUp <==> s.invoices[j].status == PaidUp)
  {
    var p := Payment(invoiceId, amount, setup.now, false);
    PayKeeps(s, invoiceId, invoiceId, amount, setup);
    var t := PayStep(s, invoiceId, invoiceId, amount, setup).state;
    RefundKeeps(t, |s.payments|, setup);
    var u := RefundStep(t, |s.payments|, setup).state;
    assert u.payments == s.payments + [p.(refunded := true)];
    hide Round2, PaidTotal, ComputeInvoiceStatus, OwnsItsInvoice, EnrolledWell;
    forall j: nat | j < |s.invoices|
      ensures u.invoices[j].paidAmount == s.invoices[j].paidAmount
      ensures u.invoices[j].status == PaidUp <==> s.invoices[j].status == PaidUp
    {
      RefundedAddsNothing(s.payments, p.(refunded := true), j);
      assert Settled(s, j) && Settled(u, j);
    }
  }

  // --- A free admission.

  /** The application's admission invoice totals nothing, and it is not enrolled. */
  ghost predicate FreeAndWaiting(s: Office, id: nat) {
    && id < |s.applicants| && s.applicants[id].enrolledStudentId.None?
    && s.applicants[id].admissionFeeInvoiceId.Some? && s.applicants[id].admissionFeeInvoiceId.value < |s.invoices|
    && s.invoices[s.applicants[id].admissionFeeInvoiceId.value].totalAmount <= 0.0
  }

  /** Nothing reprices an invoice. */
  lemma StepKeepsTotals(s: Office, e: Event, j: nat)
    requires j < |s.invoices|
    ensures j < |Step(s, e).invoices| && Step(s, e).invoices[j].totalAmount == s.invoices[j].totalAmount
  {
    hide Round2, PaidTotal, ComputeInvoiceStatus, NewInvoice;
  }

  lemma FreeStepWaits(s: Office, e: Event, id: nat)
    requires Inv(s) && FreeAndWaiting(s, id)
    ensures FreeAndWaiting(Step(s, e), id)
  {
    StepAllowed(s, e, id);
    StepKeepsTotals(s, e, s.applicants[id].admissionFeeInvoiceId.value);
    hide Step, Inv;
  }

  /** Once its admission invoice totals nothing, no continuation of the run ever enrolls the application. */
  lemma {:induction false} FreeAdmissionNeverEnrolls(es: seq<Event>, more: seq<Event>, id: nat)
    requires FreeAndWaiting(Run(es), id)
    ensures FreeAndWaiting(Run(es + more), id)
  {
    hide Step, FreeAndWaiting;
    if more == [] {
      assert es + more == es;
    } else {
      var n := |more| - 1;
      FreeAdmissionNeverEnrolls(es, more[..n], id);
      assert (es + more)[..|es + more| - 1] == es + more[..n];
      RunKeeps(es + more[..n]);
      FreeStepWaits(Run(es + more[..n]), more[n], id);
    }
  }

  /** `s` is reached by some run. */
  ghost predicate Reached(es: seq<Event>, s: Office) { Run(es) == s }

  lemma ReachNext(es: seq<Event>, s: Office, e: Event) returns (es': seq<Event>)
    requires Reached(es, s)
    ensures es' == es + [e] && Reached(es', Step(s, e))
  {
    es' := es + [e];
    assert es'[..|es|] == es;
  }

  /** An admission fee of 100 that the school waives. */
  function WaivedFee(): FeeStructure { FeeStructure(true, {"c"}, 100.0, [DiscountRule("waiver", Percentage, 100.0)]) }

  /** What the head of admissions of a school with one such class sees. */
  function FreeSetup(): Setup {
    Setup({"c"}, [WaivedFee()], {"c"}, true, {"admissions.review", "admissions.approve"}, 0)
  }

  function AtStage(stage: Stage, decision: Decision): Office {
    Office([Applicant(stage, decision, "c", None, None)], [], [], {})
  }

  lemma StageStep(stage: Stage, next: Stage, decision: Decision)
    requires StageIndex(next) == StageIndex(stage) + 1 && StageIndex(next) <= StageIndex(Acceptance)
    ensures Step(AtStage(stage, decision), Event(Update(0, Some(next), None), FreeSetup())) == AtStage(next, decision)
  {
  }

  lemma AcceptStep()
    ensures Step(AtStage(Acceptance, Undecided), Event(Decide(0, Accepted), FreeSetup())) == AtStage(Acceptance, Accepted)
  {
  }

  lemma ToAcceptance(es0: seq<Event>) returns (es: seq<Event>)
    requires Reached(es0, AtStage(Inquiry, Undecided))
    ensures Reached(es, AtStage(Acceptance, Accepted))
  {
    hide Step, Reached, AtStage;
    var setup := FreeSetup();
    StageStep(Inquiry, Application, Undecided);
    es := ReachNext(es0, AtStage(Inquiry, Undecided), Event(Update(0, Some(Application), None), setup));
    StageStep(Application, Documents, Undecided);
    es := ReachNext(es, AtStage(Application, Undecided), Event(Update(0, Some(Documents), None), setup));
    StageStep(Documents, Review, Undecided);
    es := ReachNext(es, AtStage(Documents, Undecided), Event(Update(0, Some(Review), None), setup));
    StageStep(Review, EntranceTest, Undecided);
    es := ReachNext(es, AtStage(Review, Undecided), Event(Update(0, Some(EntranceTest), None), setup));
    StageStep(EntranceTest, Interview, Undecided);
    es := ReachNext(es, AtStage(EntranceTest, Undecided), Event(Update(0, Some(Interview), None), setup));
    StageStep(Interview, Acceptance, Undecided);
    es := ReachNext(es, AtStage(Interview, Undecided), Event(Update(0, Some(Acceptance), None), setup));
    AcceptStep();
    es := ReachNext(es, AtStage(Acceptance, Undecided), Event(Decide(0, Accepted), setup));
  }

  function FreeInvoice(): Invoice { Invoice(None, Some(0), 0.0, 0.0, 0, FeeCalc.Pending) }

  function Billed(stage: Stage): Office {
    Office([Applicant(stage, Accepted, "c", Some(0), None)], [FreeInvoice()], [], {})
  }

  lemma FreeInvoiceIs()
    ensures NewInvoice(None, Some(0), WaivedFee(), 0, 0) == FreeInvoice()
  {
    var rules := WaivedFee().rules;
    assert rules[..0] == [] && Discount(100.0, rules[0]) == 100.0;
    assert TotalDiscount(100.0, rules) == 100.0;
    ZeroCents();
  }

  lemma FreeFeeStep()
    ensures Step(AtStage(Acceptance, Accepted), Event(Update(0, Some(FeePayment), None), FreeSetup())) == Billed(FeePayment)
    ensures Step(Billed(FeePayment), Event(Update(0, Some(Enrollment), None), FreeSetup())) == Billed(Enrollment)
  {
    FreeInvoiceIs();
    hide NewInvoice;
  }

  lemma ToEnrollment(es0: seq<Event>) returns (es: seq<Event>)
    requires Reached(es0, AtStage(Acceptance, Accepted))
    ensures Run(es) == Billed(Enrollment)
  {
    var setup := FreeSetup();
    FreeFeeStep();
    hide Step, AtStage, Billed;
    es := ReachNext(es0, AtStage(Acceptance, Accepted), Event(Update(0, Some(FeePayment), None), setup));
    es := ReachNext(es, Billed(FeePayment), Event(Update(0, Some(Enrollment), None), setup));
  }

  lemma FreeCannotEnroll(s: Office, student: string)
    requires s == Billed(Enrollment)
    ensures EnrollStep(s, 0, student, FreeSetup()).error == Some(BadRequest)
  {
  }

  /** An application to a class whose fee is waived goes through every stage and is stuck at the last. */
  lemma FreeAdmissionExample() returns (es: seq<Event>)
    ensures |Run(es).applicants| == 1 && Run(es).applicants[0].stage == Enrollment && Run(es).applicants[0].decision == Accepted
    ensures FreeAndWaiting(Run(es), 0)
    ensures forall student :: EnrollStep(Run(es), 0, student, FreeSetup()).error == Some(BadRequest)
  {
    var setup := FreeSetup();
    assert Reached([], Office([], [], [], {}));
    es := ReachNext([], Office([], [], [], {}), Event(Inquire("c"), setup));
    assert Reached(es, AtStage(Inquiry, Undecided));
    hide Step, Reached;
    es := ToAcceptance(es);
    es := ToEnrollment(es);
    RunKeeps(es);
    forall student ensures EnrollStep(Run(es), 0, student, setup).error == Some(BadRequest) {
      FreeCannotEnroll(Run(es), student);
    }
  }

  // --- What the balances may rely on.

  /** Every run's invoices are in whole cents. */
  lemma RunsAreInCents(es: seq<Event>)
    ensures Outstanding.InCents(Run(es).invoices)
  {
    hide Run, Round2, WholeCents, OwnsItsInvoice, EnrolledWell;
    RunKeeps(es);
    var s := Run(es);
    forall i | i in s.invoices ensures WholeCents(i.totalAmount) && WholeCents(i.paidAmount) {
      var j :| 0 <= j < |s.invoices| && s.invoices[j] == i;
      assert Settled(s, j);
      Round2Near(PaidTotal(s.payments, j));
    }
  }

  /** The directory lists the school's students, under identifiers as generated, and its applications. */
  ghost predicate Lists(d: Outstanding.Directory, s: Office) {
    && d.students.Keys == s.students && (forall x | x in s.students :: x != "" && !("admission:" <= x))
    && forall i | i in s.invoices && i.admissionId.Some? :: i.admissionId.value in d.admissions
  }

  lemma ReferencesHold(s: Office, d: Outstanding.Directory)
    requires Inv(s) && Lists(d, s)
    ensures Outstanding.ValidReferences(d, s.invoices)
  {
    hide OwnsItsInvoice, EnrolledWell, Settled;
  }

  /** After any run, the class view owes no more than the student view, and neither more than the invoices. */
  lemma RunsOweConsistently(es: seq<Event>, d: Outstanding.Directory)
    requires Lists(d, Run(es))
    ensures var invoices := Run(es).invoices;
            Outstanding.RowsOutstanding(Outstanding.ToRows(Outstanding.Group(invoices, i => Outstanding.ClassKey(d, i))))
            <= Outstanding.RowsOutstanding(Outstanding.ToRows(Outstanding.Group(invoices, Outstanding.StudentKey)))
            <= Outstanding.Owed(invoices)
  {
    RunsAreInCents(es);
    RunKeeps(es);
    ReferencesHold(Run(es), d);
    Outstanding.ClassViewBelowStudentView(d, Run(es).invoices);
  }
}
