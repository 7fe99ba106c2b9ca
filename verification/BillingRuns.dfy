/** What runs of the subscription operations guarantee about charges, access and the sweep. */
module BillingRuns {
  import opened Wrappers
  import opened PktTime
  import opened Subscriptions

  // --- The charges of one subscription.

  predicate IsRecordOf(p: Platform, j: nat, id: nat) { j < |p.records| && p.records[j].subscriptionId == id }

  /** The record of `id` preceded by exactly `n` others. */
  predicate IsNth(p: Platform, j: nat, id: nat, n: nat) { IsRecordOf(p, j, id) && CountFor(p.records, j, id) == n }

  /** The `n`-th charge falls exactly `n` months after the first, whenever the payments came. */
  lemma NthChargeDate(p: Platform, id: nat, first: nat, j: nat)
    requires Inv(p) && IsNth(p, first, id, 0) && IsRecordOf(p, j, id)
    ensures p.records[j].issuedAt == Iterate(p.records[first].issuedAt, CountFor(p.records, j, id))
  {
    hide Constraints, HasOpenCharge, AddOneMonthPkt;
    if first < j {
      assert Follows(p.records, first, j);
    } else if j < first {
      assert Follows(p.records, j, first);
    }
  }

  lemma {:induction false} NthExists(records: seq<BillingRecord>, m: nat, id: nat, n: nat) returns (j: nat)
    requires m <= |records| && n < CountFor(records, m, id)
    ensures j < m && records[j].subscriptionId == id && CountFor(records, j, id) == n
  {
    if records[m - 1].subscriptionId == id && CountFor(records, m - 1, id) == n {
      j := m - 1;
    } else {
      j := NthExists(records, m - 1, id, n);
    }
  }

  /** The period a record charges for, `[issuedAt, issuedAt plus a month)`. */
  predicate Charges(p: Platform, j: nat, id: nat, x: int) {
    IsRecordOf(p, j, id) && p.records[j].issuedAt <= x < AddOneMonthPkt(p.records[j].issuedAt)
  }

  lemma CountGrows(records: seq<BillingRecord>, j: nat, id: nat)
    requires j < |records| && records[j].subscriptionId == id
    ensures CountFor(records, j, id) < CountFor(records, |records|, id)
  {
    CountMonotone(records, j + 1, |records|, id);
  }

  lemma FirstCharge(p: Platform, id: nat) returns (first: nat, last: nat)
    requires Inv(p) && id < |p.subscriptions|
    ensures IsNth(p, first, id, 0) && OpenCharge(p, id, last)
    ensures p.subscriptions[id].currentPeriodEnd
            == Iterate(p.records[first].issuedAt, CountFor(p.records, last, id) + 1)
  {
    hide AddOneMonthPkt, Chained, CountFor;
    assert HasOpenCharge(p, id);
    last :| OpenCharge(p, id, last);
    CountGrows(p.records, last, id);
    first := NthExists(p.records, |p.records|, id, 0);
    NthChargeDate(p, id, first, last);
  }

  lemma CountsDiffer(p: Platform, id: nat, j: nat, k: nat)
    requires Inv(p) && j != k && IsRecordOf(p, j, id) && IsRecordOf(p, k, id)
    ensures CountFor(p.records, j, id) != CountFor(p.records, k, id)
  {
    hide Constraints, HasOpenCharge, AddOneMonthPkt;
    if j < k { assert Follows(p.records, j, k); } else { assert Follows(p.records, k, j); }
  }

  /** From the first charge to the end of the current period, every instant is charged exactly once. */
  lemma ChargedExactlyOnce(p: Platform, id: nat, first: nat, x: int) returns (j: nat)
    requires Inv(p) && id < |p.subscriptions| && IsNth(p, first, id, 0)
    requires p.records[first].issuedAt <= x < p.subscriptions[id].currentPeriodEnd
    ensures Charges(p, j, id, x) && forall k: nat | k != j :: !Charges(p, k, id, x)
  {
    hide AddOneMonthPkt, CountFor, Chained;
    var first', last := FirstCharge(p, id);
    NthChargeDate(p, id, first, first');
    var start := p.records[first].issuedAt;
    var n := PeriodsTile(start, CountFor(p.records, last, id) + 1, x);
    CountGrows(p.records, last, id);
    j := NthExists(p.records, |p.records|, id, n);
    NthChargeDate(p, id, first, j);
    assert Iterate(start, n + 1) == AddOneMonthPkt(Iterate(start, n));
    forall k: nat | k != j
      ensures !Charges(p, k, id, x)
    {
      if IsRecordOf(p, k, id) {
        NthChargeDate(p, id, first, k);
        var m := CountFor(p.records, k, id);
        assert Iterate(start, m + 1) == AddOneMonthPkt(Iterate(start, m));
        CountsDiffer(p, id, j, k);
      }
    }
  }

  // --- The price of each charge.

  predicate InForce(p: Platform, r: BillingRecord) {
    && r.subscriptionId < |p.subscriptions|
    && r.amount == p.subscriptions[r.subscriptionId].monthlyAmount
    && r.issuedAt == p.subscriptions[r.subscriptionId].currentPeriodStart
  }

  /** A step rewrites no charge and adds at most one, for the current period at the price then in force. */
  lemma StepRecords(p: Platform, c: Command)
    ensures var q := Step(p, c);
            && |p.records| <= |q.records| <= |p.records| + 1
            && (forall j | 0 <= j < |p.records| ::
                  && q.records[j].subscriptionId == p.records[j].subscriptionId
                  && q.records[j].amount == p.records[j].amount
                  && q.records[j].issuedAt == p.records[j].issuedAt)
            && (forall j | |p.records| <= j < |q.records| :: InForce(q, q.records[j]))
  {
    hide AddOneMonthPkt, LatestPending;
    match c
    case Create(_, _, _) =>
    case Onboard(_, _, _) =>
    case Update(_, _, _) =>
    case Confirm(_, _) =>
    case Sweep(_, _, _) =>
    case SetStatus(_, _) =>
  }

  /** Each charge of a run was issued by some step, at the price in force right after that step. */
  lemma {:induction false} ChargesAtPriceInForce(p: Platform, cs: seq<Command>, j: nat) returns (k: nat)
    requires Initial(p) && j < |Run(p, cs).records|
    ensures k < |cs|
    ensures |Run(p, cs[..k]).records| <= j < |Run(p, cs[..k + 1]).records|
    ensures InForce(Run(p, cs[..k + 1]), Run(p, cs).records[j])
  {
    hide Step, AddOneMonthPkt;
    var n := |cs| - 1;
    var before := cs[..n];
    StepRecords(Run(p, before), cs[n]);
    assert cs[..n + 1] == cs;
    if j < |Run(p, before).records| {
      k := ChargesAtPriceInForce(p, before, j);
      assert before[..k] == cs[..k] && before[..k + 1] == cs[..k + 1];
    } else {
      k := n;
    }
  }

  // --- Payment dates.

  predicate SameButPaidAt(p: Platform, q: Platform) {
    && p.tenants == q.tenants && p.subscriptions == q.subscriptions && |p.records| == |q.records|
    && forall j | 0 <= j < |p.records| :: p.records[j].(paidAt := None) == q.records[j].(paidAt := None)
  }

  predicate SameCommand(c: Command, d: Command) {
    c == d || (c.Confirm? && d.Confirm? && c.id == d.id)
  }

  lemma {:induction false} LatestPendingIgnoresPaidAt(a: seq<BillingRecord>, b: seq<BillingRecord>, n: nat, id: nat)
    requires n <= |a| == |b|
    requires forall j | 0 <= j < |a| :: a[j].(paidAt := None) == b[j].(paidAt := None)
    ensures LatestPending(a, n, id) == LatestPending(b, n, id)
  {
    if n > 0 {
      LatestPendingIgnoresPaidAt(a, b, n - 1, id);
      assert a[n - 1].(paidAt := None) == b[n - 1].(paidAt := None);
      var best := LatestPending(a, n - 1, id);
      if best.Some? { assert a[best.value].(paidAt := None) == b[best.value].(paidAt := None); }
    }
  }

  lemma StepIgnoresPaidAt(p: Platform, q: Platform, c: Command, d: Command)
    requires SameButPaidAt(p, q) && SameCommand(c, d)
    ensures SameButPaidAt(Step(p, c), Step(q, d))
  {
    hide AddOneMonthPkt, StartOfTodayPkt, LatestPending;
    match c
    case Confirm(id, _) => LatestPendingIgnoresPaidAt(p.records, q.records, |p.records|, id);
    case Create(_, _, _) =>
    case Onboard(_, _, _) =>
    case Update(_, _, _) =>
    case Sweep(_, _, _) =>
    case SetStatus(_, _) =>
  }

  /** When payments were received changes nothing but the recorded payment date. */
  lemma {:induction false} PaymentDatesDoNotShift(p: Platform, cs: seq<Command>, ds: seq<Command>)
    requires |cs| == |ds| && forall i | 0 <= i < |cs| :: SameCommand(cs[i], ds[i])
    ensures SameButPaidAt(Run(p, cs), Run(p, ds))
  {
    if cs != [] {
      var n := |cs| - 1;
      PaymentDatesDoNotShift(p, cs[..n], ds[..n]);
      StepIgnoresPaidAt(Run(p, cs[..n]), Run(p, ds[..n]), cs[n], ds[n]);
    }
  }

  // --- The sweep, row by row.

  function SweptRow(s: Subscription, now1: int, now2: int, graceDays: int): Subscription {
    AfterGrace(Expired(s, now1, graceDays), now2)
  }

  predicate SweptRowOf(p: Platform, i: int, t: string, now1: int, now2: int, graceDays: int) {
    && 0 <= i < |p.subscriptions| && p.subscriptions[i].tenantId == t
    && Overdue(Expired(p.subscriptions[i], now1, graceDays), now2)
  }

  ghost predicate TenantSwept(p: Platform, t: string, now1: int, now2: int, graceDays: int) {
    exists i :: SweptRowOf(p, i, t, now1, now2, graceDays)
  }

  lemma SweptRows(p: Platform, now1: int, now2: int, graceDays: int)
    ensures var q := SweepStep(p, now1, now2, graceDays);
            && |q.subscriptions| == |p.subscriptions| && q.records == p.records && q.tenants.Keys == p.tenants.Keys
            && (forall i | 0 <= i < |p.subscriptions| ::
                  q.subscriptions[i] == SweptRow(p.subscriptions[i], now1, now2, graceDays))
            && (forall t | t in p.tenants ::
                  q.tenants[t] == if TenantSwept(p, t, now1, now2, graceDays)
                                  then p.tenants[t].(status := TenantSuspended) else p.tenants[t])
  {
    var e := ExpireStep(p, now1, graceDays);
    forall t | t in p.tenants
      ensures TenantOverdue(e, t, now2) <==> TenantSwept(p, t, now1, now2, graceDays)
    {
      if TenantOverdue(e, t, now2) {
        var i :| 0 <= i < |e.subscriptions| && e.subscriptions[i].tenantId == t && Overdue(e.subscriptions[i], now2);
        assert SweptRowOf(p, i, t, now1, now2, graceDays);
      }
      if TenantSwept(p, t, now1, now2, graceDays) {
        var i :| SweptRowOf(p, i, t, now1, now2, graceDays);
        assert Overdue(e.subscriptions[i], now2) && e.subscriptions[i].tenantId == t;
      }
    }
  }

  // --- Access.

  lemma SweepLocks(p: Platform, now1: int, now2: int, graceDays: int)
    requires Constraints(p) && SuspensionsLock(p)
    ensures SuspensionsLock(SweepStep(p, now1, now2, graceDays))
  {
    var e := ExpireStep(p, now1, graceDays);
    var q := SweepStep(p, now1, now2, graceDays);
    forall i | 0 <= i < |q.subscriptions| && q.subscriptions[i].status == Suspended
      ensures q.subscriptions[i].tenantId in q.tenants
      ensures q.tenants[q.subscriptions[i].tenantId].status == TenantSuspended
    {
      assert q.subscriptions[i] == AfterGrace(e.subscriptions[i], now2);
      assert e.subscriptions[i] == Expired(p.subscriptions[i], now1, graceDays);
      if Overdue(e.subscriptions[i], now2) {
        assert TenantOverdue(e, q.subscriptions[i].tenantId, now2);
      }
    }
  }

  /** A manual status edit that does not open a school whose subscription is suspended. */
  predicate LeavesLocked(p: Platform, c: Command) {
    c.SetStatus? ==>
      || c.status == TenantSuspended
      || c.tenantId !in p.tenants
      || !p.tenants[c.tenantId].hasSchool
      || forall s | s in p.subscriptions && s.tenantId == c.tenantId :: s.status != Suspended
  }

  /** A manual edit keeps suspended subscriptions locked just when it does not open such a school. */
  lemma ManualEditLocks(p: Platform, tenantId: string, status: TenantStatus)
    requires Constraints(p) && SuspensionsLock(p)
    ensures SuspensionsLock(Step(p, SetStatus(tenantId, status))) <==> LeavesLocked(p, SetStatus(tenantId, status))
  {
    var c := SetStatus(tenantId, status);
    if !LeavesLocked(p, c) {
      var s :| s in p.subscriptions && s.tenantId == tenantId && s.status == Suspended;
      var i :| 0 <= i < |p.subscriptions| && p.subscriptions[i] == s;
      assert Step(p, c).subscriptions[i].status == Suspended;
    }
  }

  lemma StepLocks(p: Platform, c: Command)
    requires Inv(p) && SuspensionsLock(p)
    ensures !c.SetStatus? ==> SuspensionsLock(Step(p, c))
    ensures c.SetStatus? ==> (SuspensionsLock(Step(p, c)) <==> LeavesLocked(p, c))
  {
    hide AddOneMonthPkt, LatestPending, Chained, HasOpenCharge, SweepStep, LeavesLocked;
    match c
    case Sweep(now1, now2, graceDays) => SweepLocks(p, now1, now2, graceDays);
    case SetStatus(t, status) => ManualEditLocks(p, t, status);
    case Create(_, _, _) =>
    case Onboard(_, _, _) =>
    case Update(_, _, _) =>
    case Confirm(_, _) =>
  }

  /** As long as no manual edit opens a school whose subscription is suspended, every suspended subscription's school is suspended. */
  lemma {:induction false} RunLocks(p: Platform, cs: seq<Command>)
    requires Initial(p) && forall k | 0 <= k < |cs| :: LeavesLocked(Run(p, cs[..k]), cs[k])
    ensures SuspensionsLock(Run(p, cs))
  {
    hide Step, LeavesLocked;
    if cs != [] {
      var n := |cs| - 1;
      assert forall k | 0 <= k < n :: cs[..n][..k] == cs[..k];
      RunLocks(p, cs[..n]);
      RunKeeps(p, cs[..n]);
      StepLocks(Run(p, cs[..n]), cs[n]);
    }
  }

  /** In particular so in runs without manual edits. */
  lemma UneditedRunLocks(p: Platform, cs: seq<Command>)
    requires Initial(p) && forall c | c in cs :: !c.SetStatus?
    ensures SuspensionsLock(Run(p, cs))
  {
    forall k | 0 <= k < |cs| ensures LeavesLocked(Run(p, cs[..k]), cs[k]) {
      assert cs[k] in cs;
    }
    RunLocks(p, cs);
  }

  lemma RunOne(p: Platform, cs: seq<Command>, c: Command)
    ensures Run(p, cs + [c]) == Step(Run(p, cs), c)
  {
    assert (cs + [c])[..|cs|] == cs;
  }

  lemma RunThree(p: Platform, a: Command, b: Command, c: Command)
    ensures Run(p, [a, b, c][..2]) == Step(Step(p, a), b)
    ensures Run(p, [a, b, c]) == Step(Step(Step(p, a), b), c)
  {
    hide Step;
    assert Run(p, []) == p;
    RunOne(p, [], a);
    RunOne(p, [a], b);
    RunOne(p, [a, b], c);
    assert [a, b, c][..2] == [a, b] && [a] + [b] == [a, b] && [a, b] + [c] == [a, b, c] && [] + [a] == [a];
  }

  lemma UnpaidIsSuspended(p: Platform, end: int, graceDays: nat)
    requires |p.subscriptions| == 1 && p.subscriptions[0].status == Active && p.subscriptions[0].currentPeriodEnd == end
    requires p.subscriptions[0].tenantId in p.tenants
    ensures var late := AddDaysPkt(end, graceDays);
            var q := SweepStep(p, late, late, graceDays);
            && |q.subscriptions| == 1 && q.subscriptions[0].status == Suspended
            && q.subscriptions[0].tenantId == p.subscriptions[0].tenantId
            && q.tenants.Keys == p.tenants.Keys
            && q.tenants[q.subscriptions[0].tenantId] == p.tenants[q.subscriptions[0].tenantId].(status := TenantSuspended)
  {
    var late := AddDaysPkt(end, graceDays);
    SweptRows(p, late, late, graceDays);
    assert SweptRowOf(p, 0, p.subscriptions[0].tenantId, late, late, graceDays);
  }

  /**
   * Onboarded, never paid and swept when a month and any number of grace days have passed, a school is
   * locked; one manual edit opens it though nothing was paid.
   */
  lemma ManualEditUnlocks(amount: real, now: int, graceDays: nat)
    ensures var late := AddDaysPkt(AddOneMonthPkt(StartOfTodayPkt(now)), graceDays);
            var cs := [Onboard("t", amount, now), Sweep(late, late, graceDays), SetStatus("t", TenantActive)];
            var p := Platform(map[], [], []);
            SuspensionsLock(Run(p, cs[..2])) && !SuspensionsLock(Run(p, cs))
  {
    hide AddOneMonthPkt, StartOfTodayPkt, SweepStep, Run;
    var start := StartOfTodayPkt(now);
    var end := AddOneMonthPkt(start);
    var late := AddDaysPkt(end, graceDays);
    var p := Platform(map[], [], []);
    var p1 := Step(p, Onboard("t", amount, now));
    assert p1.subscriptions == [Subscription("t", amount, Active, start, end, None, None)];
    UnpaidIsSuspended(p1, end, graceDays);
    var p2 := Step(p1, Sweep(late, late, graceDays));
    var p3 := Step(p2, SetStatus("t", TenantActive));
    RunThree(p, Onboard("t", amount, now), Sweep(late, late, graceDays), SetStatus("t", TenantActive));
    assert p3.subscriptions[0].status == Suspended && p3.tenants["t"].status == TenantActive;
  }

  // --- The sweep catches up.

  predicate SameButReminders(p: Platform, q: Platform) {
    && p.tenants == q.tenants && p.records == q.records && |p.subscriptions| == |q.subscriptions|
    && forall i | 0 <= i < |p.subscriptions| ::
         p.subscriptions[i].(lastReminderEmailAt := None) == q.subscriptions[i].(lastReminderEmailAt := None)
  }

  lemma TenantsCatchUp(p: Platform, a: Platform, now1: int, now2: int, later1: int, later2: int, graceDays: int)
    requires now1 <= later1 && now2 <= later2 && |a.subscriptions| == |p.subscriptions|
    requires forall i | 0 <= i < |p.subscriptions| ::
               a.subscriptions[i] == SweptRow(p.subscriptions[i], now1, now2, graceDays)
    ensures forall t ::
              TenantSwept(p, t, later1, later2, graceDays)
              <==> TenantSwept(p, t, now1, now2, graceDays) || TenantSwept(a, t, later1, later2, graceDays)
  {
    forall t
      ensures TenantSwept(p, t, later1, later2, graceDays)
              <==> TenantSwept(p, t, now1, now2, graceDays) || TenantSwept(a, t, later1, later2, graceDays)
    {
      forall i
        ensures SweptRowOf(p, i, t, later1, later2, graceDays)
                <==> SweptRowOf(p, i, t, now1, now2, graceDays) || SweptRowOf(a, i, t, later1, later2, graceDays)
      {
      }
    }
  }

  /**
   * A missed sweep is made up: sweeping and sweeping again later leaves what the later sweep alone
   * leaves, except for when the reminder was sent. Sweeping twice at one time changes nothing more.
   */
  lemma SweepCatchesUp(p: Platform, now1: int, now2: int, later1: int, later2: int, graceDays: int)
    requires now1 <= later1 && now2 <= later2
    ensures SameButReminders(SweepStep(SweepStep(p, now1, now2, graceDays), later1, later2, graceDays),
                             SweepStep(p, later1, later2, graceDays))
    ensures SweepStep(SweepStep(p, now1, now2, graceDays), now1, now2, graceDays) == SweepStep(p, now1, now2, graceDays)
  {
    hide SweepStep, SuspendStep, ExpireStep;
    var a := SweepStep(p, now1, now2, graceDays);
    SweptRows(p, now1, now2, graceDays);
    SweptRows(p, later1, later2, graceDays);
    SweptRows(a, later1, later2, graceDays);
    SweptRows(a, now1, now2, graceDays);
    TenantsCatchUp(p, a, now1, now2, later1, later2, graceDays);
    TenantsCatchUp(p, a, now1, now2, now1, now2, graceDays);
  }

  /** After a sweep nothing is left to expire or suspend by the clocks it read. */
  lemma SweepLeavesNothingDue(p: Platform, now1: int, now2: int, graceDays: int, s: Subscription)
    requires s in SweepStep(p, now1, now2, graceDays).subscriptions
    ensures !Lapsed(s, now1) && !Overdue(s, now2)
  {
    SweptRows(p, now1, now2, graceDays);
  }

  // --- What a school sees of it.

  /** A school is locked out by its own subscription only. */
  lemma OnlyItsOwnSubscription(p: Platform, id: nat, now1: int, now2: int, graceDays: int)
    requires Constraints(p) && id < |p.subscriptions|
    ensures TenantSwept(p, p.subscriptions[id].tenantId, now1, now2, graceDays)
            <==> Overdue(Expired(p.subscriptions[id], now1, graceDays), now2)
  {
    var t := p.subscriptions[id].tenantId;
    if TenantSwept(p, t, now1, now2, graceDays) {
      var i :| SweptRowOf(p, i, t, now1, now2, graceDays);
      assert i == id;
    }
    if Overdue(Expired(p.subscriptions[id], now1, graceDays), now2) {
      assert SweptRowOf(p, id, t, now1, now2, graceDays);
    }
  }

  /**
   * The timeline of an unpaid subscription: one sweep leaves it active before its period ends, in
   * grace for the grace days after that, and from then on suspended with its school locked out.
   */
  lemma SweepTimeline(p: Platform, id: nat, now: int, graceDays: nat)
    requires Constraints(p) && id < |p.subscriptions| && p.subscriptions[id].status == Active
    ensures var s := p.subscriptions[id];
            var q := SweepStep(p, now, now, graceDays);
            && id < |q.subscriptions| && s.tenantId in q.tenants
            && q.subscriptions[id].status
               == (if now < s.currentPeriodEnd then Active
                   else if now < s.currentPeriodEnd + graceDays * 86_400_000 then Grace else Suspended)
            && (q.subscriptions[id].status == Grace ==>
                  q.subscriptions[id].graceEndsAt == Some(s.currentPeriodEnd + graceDays * 86_400_000))
            && (q.tenants[s.tenantId].status == TenantSuspended
                <==> p.tenants[s.tenantId].status == TenantSuspended || q.subscriptions[id].status == Suspended)
  {
    SweptRows(p, now, now, graceDays);
    OnlyItsOwnSubscription(p, id, now, now, graceDays);
  }

  lemma ConfirmReinstates(p: Platform, id: nat, paidAt: int)
    requires Inv(p) && id < |p.subscriptions| && ConfirmStep(p, id, paidAt).error == None
    ensures var q := ConfirmStep(p, id, paidAt).state;
            var t := p.subscriptions[id].tenantId;
            && |q.subscriptions| == |p.subscriptions| && q.subscriptions[id].tenantId == t
            && t in q.tenants && q.subscriptions[id].status == Active && q.tenants[t].status != TenantSuspended
            && q.subscriptions[id].currentPeriodStart == p.subscriptions[id].currentPeriodEnd
            && (forall u | u in p.tenants && u != t :: u in q.tenants && q.tenants[u] == p.tenants[u])
            && (forall i | 0 <= i < |p.subscriptions| && i != id :: q.subscriptions[i] == p.subscriptions[i])
  {
    hide AddOneMonthPkt, LatestPending, Chained, HasOpenCharge;
  }

  lemma ActiveIsNotSwept(q: Platform, id: nat, now1: int, now2: int, graceDays: int)
    requires Inv(q) && id < |q.subscriptions| && q.subscriptions[id].status == Active
    ensures var s := q.subscriptions[id];
            var r := SweepStep(q, now1, now2, graceDays);
            now1 < s.currentPeriodEnd ==>
              id < |r.subscriptions| && r.subscriptions[id] == s
              && s.tenantId in r.tenants && s.tenantId in q.tenants && r.tenants[s.tenantId] == q.tenants[s.tenantId]
  {
    hide SweepStep, Chained, HasOpenCharge;
    SweptRows(q, now1, now2, graceDays);
    OnlyItsOwnSubscription(q, id, now1, now2, graceDays);
  }

  /**
   * Confirming a payment opens the school, whatever state its subscription was in, and no sweep before
   * the end of the new period closes it again or touches the subscription. Everyone else is as before.
   */
  lemma ConfirmRestoresAccess(p: Platform, id: nat, paidAt: int, now1: int, now2: int, graceDays: int)
    requires Inv(p) && id < |p.subscriptions|
    ensures var q := ConfirmStep(p, id, paidAt).state;
            var s, t := q.subscriptions[id], p.subscriptions[id].tenantId;
            && t in q.tenants && s.status == Active && q.tenants[t].status != TenantSuspended
            && s.currentPeriodStart == p.subscriptions[id].currentPeriodEnd
            && (now1 < s.currentPeriodEnd ==>
                  var r := SweepStep(q, now1, now2, graceDays);
                  r.subscriptions[id] == s && t in r.tenants && r.tenants[t] == q.tenants[t])
            && (forall u | u in p.tenants && u != t :: u in q.tenants && q.tenants[u] == p.tenants[u])
            && (forall i | 0 <= i < |p.subscriptions| && i != id :: q.subscriptions[i] == p.subscriptions[i])
  {
    hide Inv, SweepStep, AddOneMonthPkt, LatestPending, OpenCharge, IsPending;
    ConfirmNeverFails(p, id, paidAt);
    ConfirmKeeps(p, id, paidAt);
    ConfirmReinstates(p, id, paidAt);
    ActiveIsNotSwept(ConfirmStep(p, id, paidAt).state, id, now1, now2, graceDays);
  }
}
