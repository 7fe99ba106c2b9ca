/** Outstanding balances by student and by class: what the two groupings keep of the invoices. */
module Outstanding {
  import opened Decimals
  import opened Wrappers
  import opened Money
  import opened FeeCalc
  import opened Selections

  datatype Bucket = Bucket(key: string, totalInvoiced: real, totalPaid: real)

  datatype Row = Row(id: string, totalInvoiced: real, totalPaid: real, totalOutstanding: real)

  /** The class of each student and the class each application is for. */
  datatype Directory = Directory(students: map<string, string>, admissions: map<nat, string>)

  // --- Grouping.

  function StudentKey(i: Invoice): string {
    if i.studentId.Some? then i.studentId.value
    else "admission:" + if i.admissionId.Some? then Decimal(i.admissionId.value) else "null"
  }

  predicate Present(id: Option<string>) { id.Some? && id.value != "" }

  function ClassIdOf(d: Directory, i: Invoice): string {
    if Present(i.studentId) && i.studentId.value in d.students then d.students[i.studentId.value]
    else if i.admissionId.Some? && i.admissionId.value in d.admissions then d.admissions[i.admissionId.value]
    else ""
  }

  function ClassKey(d: Directory, i: Invoice): string { if ClassIdOf(d, i) == "" then "unassigned" else ClassIdOf(d, i) }

  /** A student's invoices share a row of its own, and an application's share one until it has a student. */
  lemma StudentKeyMeaning(i: Invoice)
    ensures i.studentId.Some? ==> StudentKey(i) == i.studentId.value
    ensures i.studentId.None? && i.admissionId.Some? ==>
              "admission:" <= StudentKey(i) && ValueOf(StudentKey(i)[10..]) == i.admissionId.value
  {
    if i.studentId.None? && i.admissionId.Some? {
      DecimalRoundTrip(i.admissionId.value);
      assert StudentKey(i)[10..] == Decimal(i.admissionId.value);
    }
  }

  /** The class of the student, else the class applied for, else none. */
  lemma ClassKeyMeaning(d: Directory, i: Invoice)
    ensures i.studentId.Some? && i.studentId.value != "" && i.studentId.value in d.students && d.students[i.studentId.value] != "" ==>
              ClassKey(d, i) == d.students[i.studentId.value]
    ensures i.studentId.None? && i.admissionId.Some? && i.admissionId.value in d.admissions && d.admissions[i.admissionId.value] != "" ==>
              ClassKey(d, i) == d.admissions[i.admissionId.value]
    ensures i.studentId.None? && (i.admissionId.None? || i.admissionId.value !in d.admissions) ==> ClassKey(d, i) == "unassigned"
  {
  }

  /** An insertion-ordered map: the key's bucket grows, or a new one goes to the end. */
  function AddTo(buckets: seq<Bucket>, key: string, total: real, paid: real): seq<Bucket> {
    if buckets == [] then [Bucket(key, total, paid)]
    else if buckets[0].key == key then
      [Bucket(key, buckets[0].totalInvoiced + total, buckets[0].totalPaid + paid)] + buckets[1..]
    else [buckets[0]] + AddTo(buckets[1..], key, total, paid)
  }

  function Group(invoices: seq<Invoice>, keyOf: Invoice -> string): seq<Bucket> {
    if invoices == [] then []
    else
      var last := invoices[|invoices| - 1];
      AddTo(Group(invoices[..|invoices| - 1], keyOf), keyOf(last), last.totalAmount, last.paidAmount)
  }

  function ToRow(b: Bucket): Row {
    Row(b.key, Round2(b.totalInvoiced), Round2(b.totalPaid), Round2(Max0(b.totalInvoiced - b.totalPaid)))
  }

  function ToRows(buckets: seq<Bucket>): seq<Row> {
    seq(|buckets|, i requires 0 <= i < |buckets| => ToRow(buckets[i]))
  }

  // --- Sums.

  function Net(i: Invoice): real { i.totalAmount - i.paidAmount }

  function BucketNet(b: Bucket): real { b.totalInvoiced - b.totalPaid }

  function Invoiced(invoices: seq<Invoice>): real {
    if invoices == [] then 0.0 else Invoiced(invoices[..|invoices| - 1]) + invoices[|invoices| - 1].totalAmount
  }

  function Collected(invoices: seq<Invoice>): real {
    if invoices == [] then 0.0 else Collected(invoices[..|invoices| - 1]) + invoices[|invoices| - 1].paidAmount
  }

  function Owed(invoices: seq<Invoice>): real {
    if invoices == [] then 0.0 else Owed(invoices[..|invoices| - 1]) + Max0(Net(invoices[|invoices| - 1]))
  }

  function RowsInvoiced(rows: seq<Row>): real { if rows == [] then 0.0 else rows[0].totalInvoiced + RowsInvoiced(rows[1..]) }

  function RowsPaid(rows: seq<Row>): real { if rows == [] then 0.0 else rows[0].totalPaid + RowsPaid(rows[1..]) }

  function RowsOutstanding(rows: seq<Row>): real { if rows == [] then 0.0 else rows[0].totalOutstanding + RowsOutstanding(rows[1..]) }

  function BucketsInvoiced(bs: seq<Bucket>): real { if bs == [] then 0.0 else bs[0].totalInvoiced + BucketsInvoiced(bs[1..]) }

  function BucketsPaid(bs: seq<Bucket>): real { if bs == [] then 0.0 else bs[0].totalPaid + BucketsPaid(bs[1..]) }

  function BucketsOwed(bs: seq<Bucket>): real { if bs == [] then 0.0 else Max0(BucketNet(bs[0])) + BucketsOwed(bs[1..]) }

  /** The net of the buckets whose key is selected. */
  ghost function SelectedNet(bs: seq<Bucket>, sel: string -> bool): real {
    if bs == [] then 0.0 else (if sel(bs[0].key) then BucketNet(bs[0]) else 0.0) + SelectedNet(bs[1..], sel)
  }

  /** The net of the invoices whose key is selected. */
  ghost function SelectedInvoices(invoices: seq<Invoice>, keyOf: Invoice -> string, sel: string -> bool): real {
    if invoices == [] then 0.0
    else
      var last := invoices[|invoices| - 1];
      SelectedInvoices(invoices[..|invoices| - 1], keyOf, sel) + if sel(keyOf(last)) then Net(last) else 0.0
  }

  ghost predicate DistinctKeys(bs: seq<Bucket>) { forall i, j | 0 <= i < j < |bs| :: bs[i].key != bs[j].key }

  predicate CentsBucket(b: Bucket) { WholeCents(b.totalInvoiced) && WholeCents(b.totalPaid) }

  lemma {:induction false} AddToSums(bs: seq<Bucket>, key: string, total: real, paid: real, sel: string -> bool)
    ensures BucketsInvoiced(AddTo(bs, key, total, paid)) == BucketsInvoiced(bs) + total
    ensures BucketsPaid(AddTo(bs, key, total, paid)) == BucketsPaid(bs) + paid
    ensures SelectedNet(AddTo(bs, key, total, paid), sel) == SelectedNet(bs, sel) + if sel(key) then total - paid else 0.0
  {
    if bs == [] {
      assert [Bucket(key, total, paid)][1..] == [];
    } else if bs[0].key != key {
      AddToSums(bs[1..], key, total, paid, sel);
    }
  }

  lemma {:induction false} AddToKeys(bs: seq<Bucket>, key: string, total: real, paid: real)
    requires DistinctKeys(bs)
    ensures DistinctKeys(AddTo(bs, key, total, paid))
    ensures forall i | 0 <= i < |AddTo(bs, key, total, paid)| ::
              AddTo(bs, key, total, paid)[i].key == key || exists j :: 0 <= j < |bs| && bs[j].key == AddTo(bs, key, total, paid)[i].key
  {
    if bs != [] && bs[0].key != key {
      AddToKeys(bs[1..], key, total, paid);
    }
  }

  lemma {:induction false} AddToEach(bs: seq<Bucket>, key: string, total: real, paid: real)
    ensures total >= paid && (forall b | b in bs :: BucketNet(b) >= 0.0) ==>
              forall b | b in AddTo(bs, key, total, paid) :: BucketNet(b) >= 0.0
    ensures WholeCents(total) && WholeCents(paid) && (forall b | b in bs :: CentsBucket(b)) ==>
              forall b | b in AddTo(bs, key, total, paid) :: CentsBucket(b)
  {
    if bs != [] {
      assert bs[0] in bs;
      if bs[0].key == key {
        if WholeCents(total) && WholeCents(paid) && CentsBucket(bs[0]) {
          CentsClosed(bs[0].totalInvoiced, total);
          CentsClosed(bs[0].totalPaid, paid);
        }
      } else {
        AddToEach(bs[1..], key, total, paid);
      }
    }
  }

  lemma EmptySums(sel: string -> bool)
    ensures BucketsInvoiced([]) == 0.0 && BucketsPaid([]) == 0.0 && SelectedNet([], sel) == 0.0
  {
  }

  /** Grouping moves every amount into exactly one bucket. */
  lemma {:induction false} GroupSums(invoices: seq<Invoice>, keyOf: Invoice -> string, sel: string -> bool)
    ensures BucketsInvoiced(Group(invoices, keyOf)) == Invoiced(invoices)
    ensures BucketsPaid(Group(invoices, keyOf)) == Collected(invoices)
    ensures SelectedNet(Group(invoices, keyOf), sel) == SelectedInvoices(invoices, keyOf, sel)
  {
    hide BucketsInvoiced, BucketsPaid, SelectedNet, AddTo;
    if invoices == [] {
      EmptySums(sel);
    } else {
      var n := |invoices| - 1;
      GroupSums(invoices[..n], keyOf, sel);
      AddToSums(Group(invoices[..n], keyOf), keyOf(invoices[n]), invoices[n].totalAmount, invoices[n].paidAmount, sel);
    }
  }

  predicate NotOverpaid(invoices: seq<Invoice>) { forall i | i in invoices :: i.paidAmount <= i.totalAmount }

  predicate InCents(invoices: seq<Invoice>) { forall i | i in invoices :: WholeCents(i.totalAmount) && WholeCents(i.paidAmount) }

  lemma {:induction false} GroupShape(invoices: seq<Invoice>, keyOf: Invoice -> string)
    ensures DistinctKeys(Group(invoices, keyOf))
    ensures NotOverpaid(invoices) ==> forall b | b in Group(invoices, keyOf) :: BucketNet(b) >= 0.0
    ensures InCents(invoices) ==> forall b | b in Group(invoices, keyOf) :: CentsBucket(b)
  {
    hide AddTo, WholeCents;
    if invoices != [] {
      var n := |invoices| - 1;
      GroupShape(invoices[..n], keyOf);
      AddToKeys(Group(invoices[..n], keyOf), keyOf(invoices[n]), invoices[n].totalAmount, invoices[n].paidAmount);
      AddToEach(Group(invoices[..n], keyOf), keyOf(invoices[n]), invoices[n].totalAmount, invoices[n].paidAmount);
      assert invoices[n] in invoices;
    }
  }

  /** The invoices of one key. */
  function OfKey(invoices: seq<Invoice>, keyOf: Invoice -> string, key: string): seq<Invoice> {
    if invoices == [] then []
    else
      OfKey(invoices[..|invoices| - 1], keyOf, key)
      + if keyOf(invoices[|invoices| - 1]) == key then [invoices[|invoices| - 1]] else []
  }

  function Find(bs: seq<Bucket>, key: string): Option<Bucket> {
    if bs == [] then None else if bs[0].key == key then Some(bs[0]) else Find(bs[1..], key)
  }

  lemma {:induction false} FindAdded(bs: seq<Bucket>, key: string, total: real, paid: real, k: string)
    ensures Find(AddTo(bs, key, total, paid), k) ==
            if k != key then Find(bs, k)
            else match Find(bs, k)
                 case None => Some(Bucket(k, total, paid))
                 case Some(b) => Some(Bucket(k, b.totalInvoiced + total, b.totalPaid + paid))
  {
    if bs == [] {
      assert AddTo(bs, key, total, paid)[1..] == [];
    } else if bs[0].key != key {
      FindAdded(bs[1..], key, total, paid, k);
    }
  }

  lemma {:induction false} FindAt(bs: seq<Bucket>, i: nat)
    requires DistinctKeys(bs) && i < |bs|
    ensures Find(bs, bs[i].key) == Some(bs[i])
  {
    if i > 0 { FindAt(bs[1..], i - 1); }
  }

  lemma {:induction false} FoundIsListed(bs: seq<Bucket>, key: string)
    ensures Find(bs, key).Some? ==> Find(bs, key).value in bs && Find(bs, key).value.key == key
  {
    if bs != [] { FoundIsListed(bs[1..], key); }
  }

  lemma {:induction false} OfKeySelected(invoices: seq<Invoice>, keyOf: Invoice -> string, key: string)
    ensures Selects(invoices, (i: Invoice) => keyOf(i) == key, (i: Invoice) => i, OfKey(invoices, keyOf, key))
  {
    hide Selects;
    var keep := (i: Invoice) => keyOf(i) == key;
    var project := (i: Invoice) => i;
    if invoices == [] {
      SelectsNothing(keep, project);
    } else {
      var n := |invoices| - 1;
      OfKeySelected(invoices[..n], keyOf, key);
      SelectsOneMore(invoices[..n], invoices[n], keep, project, OfKey(invoices[..n], keyOf, key));
      assert invoices[..n] + [invoices[n]] == invoices;
    }
  }

  lemma OfKeyLast(invoices: seq<Invoice>, keyOf: Invoice -> string, key: string)
    requires invoices != []
    ensures var n := |invoices| - 1;
            var was := OfKey(invoices[..n], keyOf, key);
            if keyOf(invoices[n]) == key then
              && OfKey(invoices, keyOf, key) == was + [invoices[n]]
              && Invoiced(was + [invoices[n]]) == Invoiced(was) + invoices[n].totalAmount
              && Collected(was + [invoices[n]]) == Collected(was) + invoices[n].paidAmount
            else OfKey(invoices, keyOf, key) == was
  {
    var n := |invoices| - 1;
    var was := OfKey(invoices[..n], keyOf, key);
    assert (was + [invoices[n]])[..|was|] == was;
  }

  lemma {:induction false} OfKeyEmpty(invoices: seq<Invoice>, keyOf: Invoice -> string, key: string)
    ensures OfKey(invoices, keyOf, key) == [] <==> forall i | i in invoices :: keyOf(i) != key
  {
    if invoices != [] {
      var n := |invoices| - 1;
      OfKeyEmpty(invoices[..n], keyOf, key);
      assert invoices == invoices[..n] + [invoices[n]];
    }
  }

  lemma NothingInvoiced()
    ensures Invoiced([]) == 0.0 && Collected([]) == 0.0
  {
  }

  lemma {:induction false} FoundSums(invoices: seq<Invoice>, keyOf: Invoice -> string, key: string)
    ensures var mine := OfKey(invoices, keyOf, key);
            Find(Group(invoices, keyOf), key)
            == if mine == [] then None else Some(Bucket(key, Invoiced(mine), Collected(mine)))
  {
    hide AddTo, Find;
    if invoices == [] {
      assert Find([], key) == None by { FoundIsListed([], key); }
    } else {
      hide OfKey, Invoiced, Collected;
      var n := |invoices| - 1;
      var last := invoices[n];
      FoundSums(invoices[..n], keyOf, key);
      FindAdded(Group(invoices[..n], keyOf), keyOf(last), last.totalAmount, last.paidAmount, key);
      OfKeyLast(invoices, keyOf, key);
      NothingInvoiced();
    }
  }

  /** Each key with invoices has one row, and it shows the sums of exactly those invoices and what they leave owing. */
  lemma RowsSumUp(invoices: seq<Invoice>, keyOf: Invoice -> string, i: nat, j: nat)
    ensures var rows := ToRows(Group(invoices, keyOf));
            && (i < j < |rows| ==> rows[i].id != rows[j].id)
            && (i < |invoices| ==> exists k :: 0 <= k < |rows| && rows[k].id == keyOf(invoices[i]))
            && (i < |rows| ==>
                  var mine := OfKey(invoices, keyOf, rows[i].id);
                  && mine != []
                  && rows[i].totalInvoiced == Round2(Invoiced(mine)) && rows[i].totalPaid == Round2(Collected(mine))
                  && rows[i].totalOutstanding == Round2(Max0(Invoiced(mine) - Collected(mine))))
  {
    hide Find, Group, Invoiced, Collected, OfKey, Round2;
    var bs := Group(invoices, keyOf);
    GroupShape(invoices, keyOf);
    if i < |bs| {
      FindAt(bs, i);
      FoundSums(invoices, keyOf, bs[i].key);
    }
    if i < |invoices| {
      var key := keyOf(invoices[i]);
      OfKeyEmpty(invoices, keyOf, key);
      FoundSums(invoices, keyOf, key);
      FoundIsListed(bs, key);
      assert invoices[i] in invoices;
      var k :| 0 <= k < |bs| && bs[k].key == key;
      assert ToRows(bs)[k].id == key;
    }
  }

  // --- Comparing the groupings.

  /** No selection of buckets nets more than the clamped sum of all of them. */
  lemma {:induction false} SelectionBelowOwed(bs: seq<Bucket>, sel: string -> bool)
    ensures SelectedNet(bs, sel) <= BucketsOwed(bs)
  {
    if bs != [] { SelectionBelowOwed(bs[1..], sel); }
  }

  /** The selection that picks exactly the buckets in debt nets the clamped sum. */
  lemma {:induction false} DebtorsAreOwed(bs: seq<Bucket>, sel: string -> bool)
    requires forall i | 0 <= i < |bs| :: sel(bs[i].key) <==> BucketNet(bs[i]) > 0.0
    ensures SelectedNet(bs, sel) == BucketsOwed(bs)
  {
    if bs != [] { DebtorsAreOwed(bs[1..], sel); }
  }

  ghost predicate InDebt(bs: seq<Bucket>, key: string) {
    exists i :: 0 <= i < |bs| && bs[i].key == key && BucketNet(bs[i]) > 0.0
  }

  lemma {:induction false} SelectionBelowEach(invoices: seq<Invoice>, keyOf: Invoice -> string, sel: string -> bool)
    ensures SelectedInvoices(invoices, keyOf, sel) <= Owed(invoices)
    ensures NotOverpaid(invoices) && (forall k :: sel(k)) ==> SelectedInvoices(invoices, keyOf, sel) == Owed(invoices)
  {
    if invoices != [] {
      SelectionBelowEach(invoices[..|invoices| - 1], keyOf, sel);
      assert invoices[|invoices| - 1] in invoices;
    }
  }

  lemma {:induction false} SameSelection(invoices: seq<Invoice>, f: Invoice -> string, p: string -> bool, g: Invoice -> string, q: string -> bool)
    requires forall i | i in invoices :: p(f(i)) <==> q(g(i))
    ensures SelectedInvoices(invoices, f, p) == SelectedInvoices(invoices, g, q)
  {
    if invoices != [] {
      SameSelection(invoices[..|invoices| - 1], f, p, g, q);
      assert invoices[|invoices| - 1] in invoices;
    }
  }

  /** Invoices that share a fine key share a coarse key. */
  ghost predicate Coarser(invoices: seq<Invoice>, fine: Invoice -> string, coarse: Invoice -> string) {
    forall a, b | a in invoices && b in invoices && fine(a) == fine(b) :: coarse(a) == coarse(b)
  }

  lemma GroupOwesBelowEach(invoices: seq<Invoice>, keyOf: Invoice -> string)
    ensures BucketsOwed(Group(invoices, keyOf)) <= Owed(invoices)
    ensures NotOverpaid(invoices) ==> BucketsOwed(Group(invoices, keyOf)) == Owed(invoices)
  {
    hide Group, BucketsOwed, SelectedNet, SelectedInvoices, Owed, NotOverpaid;
    var bs := Group(invoices, keyOf);
    GroupShape(invoices, keyOf);
    ghost var debtors := k => InDebt(bs, k);
    DebtorsAreOwed(bs, debtors);
    GroupSums(invoices, keyOf, debtors);
    SelectionBelowEach(invoices, keyOf, debtors);
    if NotOverpaid(invoices) {
      ghost var everyone := (k: string) => true;
      GroupSums(invoices, keyOf, everyone);
      SelectionBelowOwed(bs, everyone);
      SelectionBelowEach(invoices, keyOf, everyone);
    }
  }

  /** Overpayment offsets debt inside a bucket only, so coarser buckets never show more outstanding. */
  lemma CoarserOwesLess(invoices: seq<Invoice>, fine: Invoice -> string, coarse: Invoice -> string)
    requires Coarser(invoices, fine, coarse)
    ensures BucketsOwed(Group(invoices, coarse)) <= BucketsOwed(Group(invoices, fine)) <= Owed(invoices)
    ensures NotOverpaid(invoices) ==>
              BucketsOwed(Group(invoices, coarse)) == BucketsOwed(Group(invoices, fine)) == Owed(invoices)
  {
    hide Group, BucketsOwed, SelectedNet, SelectedInvoices, Owed, NotOverpaid;
    var c := Group(invoices, coarse);
    GroupShape(invoices, coarse);
    ghost var debtors := k => InDebt(c, k);
    DebtorsAreOwed(c, debtors);
    GroupSums(invoices, coarse, debtors);
    ghost var owing := k => exists i :: i in invoices && fine(i) == k && debtors(coarse(i));
    SameSelection(invoices, coarse, debtors, fine, owing);
    GroupSums(invoices, fine, owing);
    SelectionBelowOwed(Group(invoices, fine), owing);
    GroupOwesBelowEach(invoices, coarse);
    GroupOwesBelowEach(invoices, fine);
  }

  /** References as the database keeps them: a student or an application is set, and whichever the code reads exists. */
  predicate ValidReferences(d: Directory, invoices: seq<Invoice>) {
    forall i | i in invoices ::
      if i.studentId.Some? then
        i.studentId.value != "" && i.studentId.value in d.students && !("admission:" <= i.studentId.value)
      else i.admissionId.Some? && i.admissionId.value in d.admissions
  }

  lemma ClassesAreCoarser(d: Directory, invoices: seq<Invoice>)
    requires ValidReferences(d, invoices)
    ensures Coarser(invoices, StudentKey, i => ClassKey(d, i))
  {
    assert forall i | i in invoices && i.studentId.None? :: "admission:" <= StudentKey(i);
    forall a, b | a in invoices && b in invoices && StudentKey(a) == StudentKey(b)
      ensures ClassKey(d, a) == ClassKey(d, b)
    {
      if a.studentId.None? && b.studentId.None? {
        assert StudentKey(a)[|"admission:"|..] == Decimal(a.admissionId.value);
        assert StudentKey(b)[|"admission:"|..] == Decimal(b.admissionId.value);
        DecimalIsInjective(a.admissionId.value, b.admissionId.value);
      }
    }
  }

  lemma {:induction false} RowsAreBuckets(bs: seq<Bucket>)
    requires forall b | b in bs :: CentsBucket(b)
    ensures RowsInvoiced(ToRows(bs)) == BucketsInvoiced(bs)
    ensures RowsPaid(ToRows(bs)) == BucketsPaid(bs)
    ensures RowsOutstanding(ToRows(bs)) == BucketsOwed(bs)
  {
    hide WholeCents, Round2;
    if bs != [] {
      RowsAreBuckets(bs[1..]);
      assert ToRows(bs)[1..] == ToRows(bs[1..]);
      assert bs[0] in bs;
      CentsClosed(bs[0].totalInvoiced, bs[0].totalPaid);
      CentsClosed(bs[0].totalInvoiced - bs[0].totalPaid, 0.0);
      Round2Near(bs[0].totalInvoiced);
      Round2Near(bs[0].totalPaid);
      Round2Near(Max0(BucketNet(bs[0])));
    }
  }

  // --- The report.

  datatype Summary = Summary(totalCollected: real, totalOutstanding: real, rows: seq<Row>)

  function Live(invoices: seq<Invoice>): (r: seq<Invoice>)
    ensures forall i | i in r :: i in invoices && i.status != Cancelled
  {
    if invoices == [] then []
    else
      var last := invoices[|invoices| - 1];
      Live(invoices[..|invoices| - 1]) + if last.status == Cancelled then [] else [last]
  }

  /** Every invoice but the cancelled ones counts, once. */
  lemma {:induction false} LiveSelected(invoices: seq<Invoice>)
    ensures Selects(invoices, (i: Invoice) => !i.status.Cancelled?, (i: Invoice) => i, Live(invoices))
  {
    hide Selects;
    var keep := (i: Invoice) => !i.status.Cancelled?;
    var project := (i: Invoice) => i;
    if invoices == [] {
      SelectsNothing(keep, project);
    } else {
      var n := |invoices| - 1;
      LiveSelected(invoices[..n]);
      SelectsOneMore(invoices[..n], invoices[n], keep, project, Live(invoices[..n]));
      assert invoices[..n] + [invoices[n]] == invoices;
    }
  }

  method GroupBy(invoices: seq<Invoice>, keyOf: Invoice -> string) returns (buckets: seq<Bucket>)
    ensures buckets == Group(invoices, keyOf)
  {
    buckets := [];
    for i := 0 to |invoices|
      invariant buckets == Group(invoices[..i], keyOf)
    {
      buckets := AddTo(buckets, keyOf(invoices[i]), invoices[i].totalAmount, invoices[i].paidAmount);
      assert invoices[..i + 1][..i] == invoices[..i];
    }
    assert invoices[..|invoices|] == invoices;
  }

  lemma {:induction false} SumsInCents(invoices: seq<Invoice>)
    requires InCents(invoices)
    ensures WholeCents(Collected(invoices)) && WholeCents(Owed(invoices))
  {
    hide WholeCents;
    CentsOf(0.0, 0);
    if invoices != [] {
      var last := invoices[|invoices| - 1];
      assert last in invoices;
      SumsInCents(invoices[..|invoices| - 1]);
      CentsClosed(Collected(invoices[..|invoices| - 1]), last.paidAmount);
      CentsClosed(last.totalAmount, last.paidAmount);
      CentsClosed(Net(last), 0.0);
      CentsClosed(Owed(invoices[..|invoices| - 1]), Max0(Net(last)));
    }
  }

  /** In whole cents and with valid references, either view adds up to what was invoiced and paid, and owes no more than the total. */
  method GetOutstanding(d: Directory, table: seq<Invoice>, byClass: bool) returns (summary: Summary)
    ensures summary.totalCollected == Round2(Collected(Live(table)))
    ensures summary.totalOutstanding == Round2(Owed(Live(table)))
    ensures summary.rows == ToRows(Group(Live(table), if byClass then (i => ClassKey(d, i)) else StudentKey))
    ensures InCents(Live(table)) ==>
              && RowsInvoiced(summary.rows) == Invoiced(Live(table))
              && RowsPaid(summary.rows) == summary.totalCollected
    ensures InCents(Live(table)) && ValidReferences(d, Live(table)) ==>
              && RowsOutstanding(summary.rows) <= summary.totalOutstanding
              && (NotOverpaid(Live(table)) ==> RowsOutstanding(summary.rows) == summary.totalOutstanding)
  {
    hide Round2, WholeCents, Group, ToRows, Collected, Owed, Live;
    var invoices := Live(table);
    var keyOf: Invoice -> string := if byClass then (i => ClassKey(d, i)) else StudentKey;
    var buckets := GroupBy(invoices, keyOf);
    var rows := ToRows(buckets);
    summary := Summary(Round2(Collected(invoices)), Round2(Owed(invoices)), rows);
    if InCents(invoices) {
      GroupShape(invoices, keyOf);
      RowsAreBuckets(buckets);
      GroupSums(invoices, keyOf, k => true);
      SumsInCents(invoices);
      Round2Near(Collected(invoices));
      Round2Near(Owed(invoices));
      if ValidReferences(d, invoices) {
        ClassesAreCoarser(d, invoices);
        CoarserOwesLess(invoices, StudentKey, i => ClassKey(d, i));
      }
    }
  }

  /** The class view never shows more outstanding than the student view, and neither more than the total. */
  lemma ClassViewBelowStudentView(d: Directory, invoices: seq<Invoice>)
    requires ValidReferences(d, invoices) && InCents(invoices)
    ensures RowsOutstanding(ToRows(Group(invoices, i => ClassKey(d, i)))) <= RowsOutstanding(ToRows(Group(invoices, StudentKey)))
            <= Owed(invoices)
  {
    hide Group, ToRows, Owed, BucketsOwed, RowsOutstanding, ValidReferences;
    var byClass: Invoice -> string := i => ClassKey(d, i);
    ClassesAreCoarser(d, invoices);
    CoarserOwesLess(invoices, StudentKey, byClass);
    GroupShape(invoices, byClass);
    GroupShape(invoices, StudentKey);
    RowsAreBuckets(Group(invoices, byClass));
    RowsAreBuckets(Group(invoices, StudentKey));
  }
}
