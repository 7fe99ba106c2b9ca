/** The admissions and invoice services as they run, changing one table row after another. */
module AdmissionsService {
  import opened Wrappers
  import opened Money
  import opened FeeCalc
  import opened Admissions

  method FindStructure(structures: seq<FeeStructure>, classId: string) returns (r: Option<FeeStructure>)
    ensures r == FirstStructure(structures, classId)
  {
    for i := 0 to |structures|
      invariant FirstStructure(structures[i..], classId) == FirstStructure(structures, classId)
    {
      assert structures[i..][1..] == structures[i + 1..];
      if structures[i].forAdmission && classId in structures[i].classes {
        return Some(structures[i]);
      }
    }
    return None;
  }

  class AdmissionsDatabase {
    var applicants: seq<Applicant>
    var invoices: seq<Invoice>
    var payments: seq<Payment>
    var students: set<string>

    function View(): Office
      reads this
    {
      Office(applicants, invoices, payments, students)
    }

    constructor ()
      ensures View() == Run([]) && Inv(View())
    {
      applicants, invoices, payments, students := [], [], [], {};
    }

    /** A new application starts undecided, owes no invoice, and can only move on to the application stage. */
    method CreateInquiry(classId: string, setup: Setup) returns (error: Option<Error>)
      requires Inv(View())
      modifies this`applicants
      ensures Inv(View())
      ensures Outcome(View(), error) == InquireStep(old(View()), classId, setup)
      ensures error.None? <==> classId in setup.classes
      ensures error.Some? ==> applicants == old(applicants)
      ensures error.None? ==>
                && |applicants| == |old(applicants)| + 1 && applicants[..|old(applicants)|] == old(applicants)
                && (forall j | 0 <= j < |invoices| :: invoices[j].admissionId != Some(|old(applicants)|))
                && forall target, permissions ::
                     TransitionError(applicants[|old(applicants)|], target, permissions).None? <==> target == Application
    {
      InquireKeeps(View(), classId, setup);
      if classId !in setup.classes {
        return Some(BadRequest);
      }
      applicants := applicants + [Applicant(Inquiry, Undecided, classId, None, None)];
      assert OwnsItsInvoice(View(), |old(applicants)|);
      return None;
    }

    method GenerateAdmissionInvoice(id: nat, setup: Setup) returns (invoice: Option<nat>)
      requires id < |applicants|
      modifies this`invoices
      ensures (View(), invoice) == AdmissionInvoice(old(View()), id, setup)
    {
      var admission := applicants[id];
      if admission.admissionFeeInvoiceId.Some? && admission.admissionFeeInvoiceId.value < |invoices| {
        return admission.admissionFeeInvoiceId;
      }
      var structure := FindStructure(setup.structures, admission.classAppliedFor);
      if structure.None? {
        return None;
      }
      var created := |invoices|;
      invoices := invoices + [NewInvoice(None, Some(id), structure.value, setup.now, setup.now)];
      return Some(created);
    }

    method Update(id: nat, stage: Option<Stage>, newClass: Option<string>, setup: Setup) returns (error: Option<Error>)
      requires Inv(View())
      modifies this`applicants, this`invoices
      ensures Inv(View())
      ensures Outcome(View(), error) == UpdateStep(old(View()), id, stage, newClass, setup)
    {
      hide NewInvoice, Inv;
      UpdateKeeps(View(), id, stage, newClass, setup);
      if id >= |applicants| {
        return Some(NotFound);
      }
      var existing := applicants[id];
      if stage.Some? {
        var refused := TransitionError(existing, stage.value, setup.permissions);
        if refused.Some? {
          return refused;
        }
      }
      if newClass.Some? && newClass.value != "" && newClass.value !in setup.classes {
        return Some(BadRequest);
      }
      var invoice: Option<nat> := None;
      if stage == Some(FeePayment) {
        invoice := GenerateAdmissionInvoice(id, setup);
        if invoice.None? {
          return Some(BadRequest);
        }
      }
      var updated := applicants[id];
      if stage.Some? {
        updated := updated.(stage := stage.value);
      }
      if invoice.Some? {
        updated := updated.(admissionFeeInvoiceId := invoice);
      }
      if newClass.Some? {
        updated := updated.(classAppliedFor := newClass.value);
      }
      applicants := applicants[id := updated];
      return None;
    }

    /**
     * A decision touches its own application only. Taken at the acceptance stage it opens fee payment,
     * to those who may approve, exactly when it accepts.
     */
    method Decide(id: nat, decision: Decision, setup: Setup) returns (error: Option<Error>)
      requires Inv(View())
      modifies this`applicants
      ensures Inv(View())
      ensures Outcome(View(), error) == DecideStep(old(View()), id, decision, setup)
      ensures error.None? <==>
                id < |applicants| && (if decision == Rejected then "admissions.reject" else "admissions.approve") in setup.permissions
      ensures |applicants| == |old(applicants)|
      ensures forall k | 0 <= k < |applicants| && (k != id || error.Some?) :: applicants[k] == old(applicants)[k]
      ensures error.None? ==>
                && applicants[id].stage == old(applicants)[id].stage
                && forall permissions :: TransitionError(applicants[id], FeePayment, permissions).None?
                     <==> applicants[id].stage == Acceptance && decision == Accepted && "admissions.approve" in permissions
    {
      hide Inv;
      DecideKeeps(View(), id, decision, setup);
      if id >= |applicants| {
        return Some(NotFound);
      }
      var required := if decision == Rejected then "admissions.reject" else "admissions.approve";
      if required !in setup.permissions {
        return Some(Forbidden);
      }
      applicants := applicants[id := applicants[id].(decision := decision)];
      return None;
    }

    method RecomputeInvoiceTotals(invoiceId: nat, now: int)
      requires invoiceId < |invoices|
      modifies this`invoices
      ensures invoices == Recomputed(old(invoices), payments, invoiceId, now)
    {
      hide Round2, ComputeInvoiceStatus;
      var sum := 0.0;
      for i := 0 to |payments|
        invariant invoices == old(invoices) && payments == old(payments)
        invariant sum == PaidTotal(payments[..i], invoiceId)
      {
        assert payments[..i + 1][..i] == payments[..i];
        if payments[i].invoiceId == invoiceId && !payments[i].refunded {
          sum := sum + payments[i].amount;
        }
      }
      assert payments[..|payments|] == payments;
      var paidAmount := Round2(sum);
      var invoice := invoices[invoiceId];
      var status := ComputeInvoiceStatus(invoice.totalAmount, paidAmount, invoice.dueDate, now);
      invoices := invoices[invoiceId := invoice.(paidAmount := paidAmount, status := status)];
    }

    method RecordPayment(invoiceId: nat, bodyInvoiceId: nat, amount: real, setup: Setup) returns (error: Option<Error>)
      requires Inv(View())
      modifies this`payments, this`invoices
      ensures Inv(View())
      ensures Outcome(View(), error) == PayStep(old(View()), invoiceId, bodyInvoiceId, amount, setup)
    {
      hide Recomputed, Inv;
      PayKeeps(View(), invoiceId, bodyInvoiceId, amount, setup);
      if bodyInvoiceId != invoiceId {
        return Some(BadRequest);
      }
      if invoiceId >= |invoices| {
        return Some(NotFound);
      }
      payments := payments + [Payment(invoiceId, amount, setup.now, false)];
      RecomputeInvoiceTotals(invoiceId, setup.now);
      return None;
    }

    method RefundPayment(paymentId: nat, setup: Setup) returns (error: Option<Error>)
      requires Inv(View())
      modifies this`payments, this`invoices
      ensures Inv(View())
      ensures Outcome(View(), error) == RefundStep(old(View()), paymentId, setup)
    {
      hide Recomputed, Inv;
      RefundKeeps(View(), paymentId, setup);
      if paymentId >= |payments| {
        return Some(NotFound);
      }
      var payment := payments[paymentId];
      if payment.refunded {
        return Some(Conflict);
      }
      if payment.invoiceId >= |invoices| {
        return Some(NotFound);
      }
      payments := payments[paymentId := payment.(refunded := true)];
      RecomputeInvoiceTotals(payment.invoiceId, setup.now);
      return None;
    }

    method ReconcileAdmissionInvoices(admissionId: nat, studentId: string)
      modifies this`invoices
      ensures invoices == Reconciled(old(invoices), admissionId, studentId)
    {
      for i := 0 to |invoices|
        invariant |invoices| == |old(invoices)|
        invariant forall j | i <= j < |invoices| :: invoices[j] == old(invoices)[j]
        invariant forall j | 0 <= j < i :: invoices[j] == Reconciled(old(invoices), admissionId, studentId)[j]
      {
        if invoices[i].admissionId == Some(admissionId) {
          invoices := invoices[i := invoices[i].(studentId := Some(studentId))];
        }
      }
    }

    method Enroll(id: nat, studentId: string, setup: Setup) returns (error: Option<Error>)
      requires Inv(View())
      modifies this
      ensures Inv(View())
      ensures Outcome(View(), error) == EnrollStep(old(View()), id, studentId, setup)
    {
      hide Reconciled, Inv;
      EnrollKeeps(View(), id, studentId, setup);
      if id >= |applicants| {
        return Some(NotFound);
      }
      var admission := applicants[id];
      if admission.stage != Enrollment {
        return Some(BadRequest);
      }
      if admission.enrolledStudentId.Some? {
        return Some(Conflict);
      }
      if admission.admissionFeeInvoiceId.None? || admission.admissionFeeInvoiceId.value >= |invoices|
         || invoices[admission.admissionFeeInvoiceId.value].status != PaidUp {
        return Some(BadRequest);
      }
      if admission.classAppliedFor !in setup.classesWithSections || !setup.hasAcademicYear {
        return Some(BadRequest);
      }
      if studentId in students {
        return Some(Conflict);
      }
      students := students + {studentId};
      applicants := applicants[id := admission.(enrolledStudentId := Some(studentId))];
      ReconcileAdmissionInvoices(id, studentId);
      return None;
    }
  }
}
