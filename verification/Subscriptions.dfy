/**
 * Subscription billing: what each platform operation does to the tenant, subscription and billing
 * record tables, and what every run of operations keeps. A subscription or record is named by its
 * row number.
 */
module Subscriptions {
  import opened Wrappers
  import opened PktTime

  datatype TenantStatus = TenantActive | TenantSuspended | TenantTrial

  datatype Tenant = Tenant(hasSchool: bool, status: TenantStatus)

  datatype SubscriptionStatus = Active | Grace | Suspended | Canceled

  datatype Subscription = Subscription(
    tenantId: string,
    monthlyAmount: real,
    status: SubscriptionStatus,
    currentPeriodStart: int,
    currentPeriodEnd: int,
    graceEndsAt: Option<int>,
    lastReminderEmailAt: Option<int>)

  datatype BillingStatus = Pending | Paid | Failed

  datatype BillingRecord = BillingRecord(
    tenantId: string,
    subscriptionId: nat,
    amount: real,
    status: BillingStatus,
    issuedAt: int,
    paidAt: Option<int>)

  datatype Platform = Platform(
    tenants: map<string, Tenant>,
    subscriptions: seq<Subscription>,
    records: seq<BillingRecord>)

  /** The table after an operation, and the exception it threw, if any. */
  datatype Outcome = Outcome(state: Platform, error: Option<Error>)

  // --- Database constraints: the foreign key to the tenant, and one subscription per tenant.

  ghost predicate Constraints(p: Platform) {
    && (forall i | 0 <= i < |p.subscriptions| :: p.subscriptions[i].tenantId in p.tenants)
    && (forall i, j | 0 <= i < j < |p.subscriptions| :: p.subscriptions[i].tenantId != p.subscriptions[j].tenantId)
  }

  // --- Billing records.

  predicate IsPending(records: seq<BillingRecord>, j: int, id: nat) {
    0 <= j < |records| && records[j].subscriptionId == id && records[j].status == Pending
  }

  /** The pending record of a subscription with the latest `issuedAt`, among the first `n` rows. */
  function LatestPending(records: seq<BillingRecord>, n: nat, id: nat): (r: Option<nat>)
    requires n <= |records|
    ensures r.Some? ==> r.value < n && IsPending(records, r.value, id)
    ensures forall j | 0 <= j < n && IsPending(records, j, id) ::
              r.Some? && records[j].issuedAt <= records[r.value].issuedAt
  {
    if n == 0 then None
    else
      var best := LatestPending(records, n - 1, id);
      if IsPending(records, n - 1, id) && (best.None? || records[best.value].issuedAt < records[n - 1].issuedAt)
      then Some(n - 1) else best
  }

  function NewPending(tenantId: string, id: nat, amount: real, issuedAt: int): BillingRecord {
    BillingRecord(tenantId, id, amount, Pending, issuedAt, None)
  }

  // --- The operations.

  predicate HasSubscription(p: Platform, tenantId: string) {
    exists i | 0 <= i < |p.subscriptions| :: p.subscriptions[i].tenantId == tenantId
  }

  function Subscribe(p: Platform, tenantId: string, amount: real, start: int): Platform {
    var s := Subscription(tenantId, amount, Active, start, AddOneMonthPkt(start), None, None);
    p.(subscriptions := p.subscriptions + [s],
       records := p.records + [NewPending(tenantId, |p.subscriptions|, amount, start)])
  }

  function CreateStep(p: Platform, tenantId: string, amount: real, now: int): Outcome {
    if tenantId !in p.tenants || !p.tenants[tenantId].hasSchool then Outcome(p, Some(NotFound))
    else if HasSubscription(p, tenantId) then Outcome(p, Some(Conflict))
    else Outcome(Subscribe(p, tenantId, amount, StartOfTodayPkt(now)), None)
  }

  /** Onboarding a school creates its tenant together with its subscription. */
  function OnboardStep(p: Platform, tenantId: string, amount: real, now: int): Outcome {
    if tenantId in p.tenants then Outcome(p, Some(Conflict))
    else
      var q := p.(tenants := p.tenants[tenantId := Tenant(true, TenantActive)]);
      Outcome(Subscribe(q, tenantId, amount, StartOfTodayPkt(now)), None)
  }

  /** A request field counts only when it is present and non-zero. */
  predicate Truthy(amount: Option<real>) { amount.Some? && amount.value != 0.0 }

  function UpdateStep(p: Platform, id: nat, amount: Option<real>, cancel: bool): Outcome {
    if Truthy(amount) && cancel then Outcome(p, Some(BadRequest))
    else if id >= |p.subscriptions| then Outcome(p, Some(NotFound))
    else if Truthy(amount) then
      Outcome(p.(subscriptions := p.subscriptions[id := p.subscriptions[id].(monthlyAmount := amount.value)]), None)
    else if cancel then
      Outcome(p.(subscriptions := p.subscriptions[id := p.subscriptions[id].(status := Canceled, graceEndsAt := None)]), None)
    else Outcome(p, None)
  }

  function Renewed(s: Subscription): Subscription {
    s.(status := Active,
       currentPeriodStart := s.currentPeriodEnd,
       currentPeriodEnd := AddOneMonthPkt(s.currentPeriodEnd),
       graceEndsAt := None,
       lastReminderEmailAt := None)
  }

  function Reinstated(tenants: map<string, Tenant>, tenantId: string): map<string, Tenant> {
    if tenantId in tenants && tenants[tenantId].status == TenantSuspended
    then tenants[tenantId := tenants[tenantId].(status := TenantActive)] else tenants
  }

  function ConfirmStep(p: Platform, id: nat, paidAt: int): Outcome {
    if id >= |p.subscriptions| then Outcome(p, Some(NotFound))
    else
      var pending := LatestPending(p.records, |p.records|, id);
      if pending.None? then Outcome(p, Some(BadRequest))
      else
        var s := p.subscriptions[id];
        var paid := p.records[pending.value].(status := Paid, paidAt := Some(paidAt));
        Outcome(
          Platform(
            Reinstated(p.tenants, s.tenantId),
            p.subscriptions[id := Renewed(s)],
            p.records[pending.value := paid]
            + [NewPending(s.tenantId, id, s.monthlyAmount, s.currentPeriodEnd)]),
          None)
  }

  // --- The daily sweep, which reads the clock once for each of its two passes.

  predicate Lapsed(s: Subscription, now: int) { s.status == Active && s.currentPeriodEnd <= now }

  function Expired(s: Subscription, now: int, graceDays: int): Subscription {
    if Lapsed(s, now)
    then s.(status := Grace,
            graceEndsAt := Some(AddDaysPkt(s.currentPeriodEnd, graceDays)),
            lastReminderEmailAt := Some(now))
    else s
  }

  predicate Overdue(s: Subscription, now: int) {
    s.status == Grace && s.graceEndsAt.Some? && s.graceEndsAt.value <= now
  }

  function AfterGrace(s: Subscription, now: int): Subscription {
    if Overdue(s, now) then s.(status := Suspended) else s
  }

  function ExpireStep(p: Platform, now: int, graceDays: int): Platform {
    p.(subscriptions := seq(|p.subscriptions|, i requires 0 <= i < |p.subscriptions| =>
                              Expired(p.subscriptions[i], now, graceDays)))
  }

  predicate TenantOverdue(p: Platform, tenantId: string, now: int) {
    exists i | 0 <= i < |p.subscriptions| :: p.subscriptions[i].tenantId == tenantId && Overdue(p.subscriptions[i], now)
  }

  function SuspendStep(p: Platform, now: int): Platform {
    p.(subscriptions := seq(|p.subscriptions|, i requires 0 <= i < |p.subscriptions| =>
                              AfterGrace(p.subscriptions[i], now)),
       tenants := map t | t in p.tenants ::
                    if TenantOverdue(p, t, now) then p.tenants[t].(status := TenantSuspended) else p.tenants[t])
  }

  function SweepStep(p: Platform, now1: int, now2: int, graceDays: int): Platform {
    SuspendStep(ExpireStep(p, now1, graceDays), now2)
  }

  function SetStatusStep(p: Platform, tenantId: string, status: TenantStatus): Outcome {
    if tenantId !in p.tenants || !p.tenants[tenantId].hasSchool then Outcome(p, Some(NotFound))
    else Outcome(p.(tenants := p.tenants[tenantId := p.tenants[tenantId].(status := status)]), None)
  }

  // --- Runs.

  datatype Command =
    | Create(tenantId: string, amount: real, now: int)
    | Onboard(tenantId: string, amount: real, now: int)
    | Update(id: nat, newAmount: Option<real>, cancel: bool)
    | Confirm(id: nat, paidAt: int)
    | Sweep(now1: int, now2: int, graceDays: int)
    | SetStatus(tenantId: string, status: TenantStatus)

  function Step(p: Platform, c: Command): Platform {
    match c
    case Create(t, amount, now) => CreateStep(p, t, amount, now).state
    case Onboard(t, amount, now) => OnboardStep(p, t, amount, now).state
    case Update(id, amount, cancel) => UpdateStep(p, id, amount, cancel).state
    case Confirm(id, paidAt) => ConfirmStep(p, id, paidAt).state
    case Sweep(now1, now2, graceDays) => SweepStep(p, now1, now2, graceDays)
    case SetStatus(t, status) => SetStatusStep(p, t, status).state
  }

  function Run(p: Platform, cs: seq<Command>): Platform {
    if cs == [] then p else Step(Run(p, cs[..|cs| - 1]), cs[|cs| - 1])
  }

  /** Before any subscription: some tenants, nothing billed. */
  predicate Initial(p: Platform) { p.subscriptions == [] && p.records == [] }

  // --- What every run keeps.

  /** How many of the first `n` records are for subscription `id`. */
  function CountFor(records: seq<BillingRecord>, n: nat, id: nat): nat
    requires n <= |records|
  {
    if n == 0 then 0 else CountFor(records, n - 1, id) + if records[n - 1].subscriptionId == id then 1 else 0
  }

  /** Record `i` is the one charge of `id` still open: it is for the current period, and the rest are paid. */
  ghost predicate OpenCharge(p: Platform, id: nat, i: nat)
    requires id < |p.subscriptions|
  {
    && IsPending(p.records, i, id)
    && p.records[i].issuedAt == p.subscriptions[id].currentPeriodStart
    && p.subscriptions[id].currentPeriodEnd == AddOneMonthPkt(p.subscriptions[id].currentPeriodStart)
    && (forall j | 0 <= j < |p.records| && p.records[j].subscriptionId == id && j != i ::
          j < i && p.records[j].status == Paid)
  }

  ghost predicate HasOpenCharge(p: Platform, id: nat)
    requires id < |p.subscriptions|
  {
    exists i: nat :: OpenCharge(p, id, i)
  }

  /** Record `j` is as many months after the earlier record `i` as it comes after it. */
  ghost predicate Follows(records: seq<BillingRecord>, i: nat, j: nat)
    requires i < j < |records|
  {
    var id := records[i].subscriptionId;
    var steps := CountFor(records, j, id) - CountFor(records, i, id);
    records[j].subscriptionId == id ==> steps > 0 && records[j].issuedAt == Iterate(records[i].issuedAt, steps)
  }

  ghost predicate Chained(records: seq<BillingRecord>) {
    forall i: nat, j: nat | i < j < |records| :: Follows(records, i, j)
  }

  ghost predicate Inv(p: Platform) {
    && Constraints(p)
    && (forall j | 0 <= j < |p.records| :: p.records[j].subscriptionId < |p.subscriptions|)
    && (forall id: nat | id < |p.subscriptions| :: HasOpenCharge(p, id))
    && Chained(p.records)
    && (forall s | s in p.subscriptions :: s.graceEndsAt.Some? <==> s.status == Grace || s.status == Suspended)
  }

  /** A suspended subscription has locked its school out. */
  ghost predicate SuspensionsLock(p: Platform) {
    forall i | 0 <= i < |p.subscriptions| && p.subscriptions[i].status == Suspended ::
      && p.subscriptions[i].tenantId in p.tenants
      && p.tenants[p.subscriptions[i].tenantId].status == TenantSuspended
  }

  lemma {:induction false} CountMonotone(records: seq<BillingRecord>, i: nat, j: nat, id: nat)
    requires i <= j <= |records|
    ensures CountFor(records, i, id) <= CountFor(records, j, id)
    decreases j
  {
    if i < j { CountMonotone(records, i, j - 1, id); }
  }

  /** Counting reads only whose record each row is. */
  lemma {:induction false} CountExtends(a: seq<BillingRecord>, b: seq<BillingRecord>, n: nat, id: nat)
    requires n <= |a| <= |b|
    requires forall j | 0 <= j < |a| :: a[j].subscriptionId == b[j].subscriptionId
    ensures CountFor(a, n, id) == CountFor(b, n, id)
  {
    if n > 0 { CountExtends(a, b, n - 1, id); }
  }

  /** Row `l` is the last record of subscription `id`. */
  ghost predicate IsLast(records: seq<BillingRecord>, l: nat, id: nat) {
    && l < |records| && records[l].subscriptionId == id
    && forall m | l < m < |records| :: records[m].subscriptionId != id
  }

  lemma StepOn(t: int, k: nat, u: int)
    requires u == Iterate(t, k)
    ensures AddOneMonthPkt(u) == Iterate(t, k + 1)
  {
  }

  lemma {:induction false} CountFlat(records: seq<BillingRecord>, i: nat, j: nat, id: nat)
    requires i <= j <= |records|
    requires forall m | i <= m < j :: records[m].subscriptionId != id
    ensures CountFor(records, j, id) == CountFor(records, i, id)
    decreases j
  {
    if i < j { CountFlat(records, i, j - 1, id); }
  }

  lemma CountToLast(records: seq<BillingRecord>, l: nat, id: nat)
    requires IsLast(records, l, id)
    ensures CountFor(records, |records|, id) == CountFor(records, l, id) + 1
  {
    CountFlat(records, l + 1, |records|, id);
  }

  lemma NoStep(t: int)
    ensures Iterate(t, 0) == t
  {
  }

  lemma FollowsAfterLast(a: seq<BillingRecord>, b: seq<BillingRecord>, i: nat, l: nat, id: nat)
    requires i < |a| && |b| == |a| + 1 && IsLast(a, l, id) && a[i].subscriptionId == id
    requires i < l ==> Follows(a, i, l)
    requires forall j | 0 <= j < |a| :: a[j].subscriptionId == b[j].subscriptionId
    requires b[i].issuedAt == a[i].issuedAt && b[|a|].subscriptionId == id && b[|a|].issuedAt == AddOneMonthPkt(a[l].issuedAt)
    ensures Follows(b, i, |a|)
  {
    hide AddOneMonthPkt, CountFor, Iterate;
    CountExtends(a, b, i, id);
    CountExtends(a, b, |a|, id);
    CountToLast(a, l, id);
    NoStep(a[i].issuedAt);
    StepOn(a[i].issuedAt, CountFor(a, l, id) - CountFor(a, i, id), a[l].issuedAt);
  }

  lemma LastFollows(a: seq<BillingRecord>, b: seq<BillingRecord>, i: nat)
    requires Chained(a) && i < |a| && |b| == |a| + 1
    requires forall j | 0 <= j < |a| :: a[j].subscriptionId == b[j].subscriptionId && a[j].issuedAt == b[j].issuedAt
    requires a[i].subscriptionId == b[|a|].subscriptionId
    requires exists l: nat :: IsLast(a, l, b[|a|].subscriptionId) && b[|a|].issuedAt == AddOneMonthPkt(a[l].issuedAt)
    ensures Follows(b, i, |a|)
  {
    hide AddOneMonthPkt, CountFor, Follows;
    var n, id := |a|, a[i].subscriptionId;
    var l: nat :| IsLast(a, l, id) && b[n].issuedAt == AddOneMonthPkt(a[l].issuedAt);
    FollowsAfterLast(a, b, i, l, id);
  }

  /** Chaining survives a change of status and a new charge one month after the subscription's last. */
  lemma ChainGrows(a: seq<BillingRecord>, b: seq<BillingRecord>)
    requires Chained(a) && |b| == |a| + 1
    requires forall j | 0 <= j < |a| :: a[j].subscriptionId == b[j].subscriptionId && a[j].issuedAt == b[j].issuedAt
    requires forall j | 0 <= j < |a| && a[j].subscriptionId == b[|a|].subscriptionId ::
               exists l: nat :: IsLast(a, l, b[|a|].subscriptionId) && b[|a|].issuedAt == AddOneMonthPkt(a[l].issuedAt)
    ensures Chained(b)
  {
    hide AddOneMonthPkt, CountFor;
    var n := |a|;
    forall i: nat, j: nat | i < j < |b|
      ensures Follows(b, i, j)
    {
      var id := b[i].subscriptionId;
      CountExtends(a, b, i, id);
      CountExtends(a, b, j, id);
      if j < n {
        assert Follows(a, i, j);
      } else if b[n].subscriptionId == id {
        LastFollows(a, b, i);
      }
    }
  }

  lemma SubscribeKeeps(p: Platform, tenantId: string, amount: real, start: int)
    requires Inv(p) && tenantId in p.tenants && !HasSubscription(p, tenantId)
    ensures Inv(Subscribe(p, tenantId, amount, start))
  {
    hide AddOneMonthPkt;
    var q := Subscribe(p, tenantId, amount, start);
    var n := |p.subscriptions|;
    ChainGrows(p.records, q.records);
    forall id: nat | id < |q.subscriptions|
      ensures HasOpenCharge(q, id)
    {
      if id == n {
        assert OpenCharge(q, id, |p.records|);
      } else {
        assert HasOpenCharge(p, id);
        var i: nat :| OpenCharge(p, id, i);
        assert OpenCharge(q, id, i);
      }
    }
  }

  /** Rows changed only in price, status, reminder or grace end, and kept consistent, stay billed. */
  lemma SameBillingKeeps(p: Platform, q: Platform)
    requires Inv(p) && Constraints(q) && q.records == p.records && |q.subscriptions| == |p.subscriptions|
    requires forall i | 0 <= i < |p.subscriptions| ::
               && q.subscriptions[i].currentPeriodStart == p.subscriptions[i].currentPeriodStart
               && q.subscriptions[i].currentPeriodEnd == p.subscriptions[i].currentPeriodEnd
               && (q.subscriptions[i].graceEndsAt.Some?
                   <==> q.subscriptions[i].status == Grace || q.subscriptions[i].status == Suspended)
    ensures Inv(q)
  {
    forall id: nat | id < |q.subscriptions|
      ensures HasOpenCharge(q, id)
    {
      assert HasOpenCharge(p, id);
      var i: nat :| OpenCharge(p, id, i);
      assert OpenCharge(q, id, i);
    }
  }

  /** Confirming a payment never finds the pending record missing, and picks the one open charge. */
  lemma ConfirmNeverFails(p: Platform, id: nat, paidAt: int)
    requires Inv(p) && id < |p.subscriptions|
    ensures ConfirmStep(p, id, paidAt).error == None
    ensures var i := LatestPending(p.records, |p.records|, id);
            i.Some? && OpenCharge(p, id, i.value) && forall j :: IsPending(p.records, j, id) ==> j == i.value
  {
    hide AddOneMonthPkt, Chained, Constraints, CountFor, LatestPending;
    assert HasOpenCharge(p, id);
    var i: nat :| OpenCharge(p, id, i);
  }

  lemma ConfirmKeeps(p: Platform, id: nat, paidAt: int)
    requires Inv(p) && id < |p.subscriptions|
    ensures Inv(ConfirmStep(p, id, paidAt).state)
  {
    hide AddOneMonthPkt, LatestPending, CountFor;
    ConfirmNeverFails(p, id, paidAt);
    var i := LatestPending(p.records, |p.records|, id).value;
    var q := ConfirmStep(p, id, paidAt).state;
    assert IsLast(p.records, i, id);
    ChainGrows(p.records, q.records);
    forall k: nat | k < |q.subscriptions|
      ensures HasOpenCharge(q, k)
    {
      if k == id {
        assert OpenCharge(q, k, |p.records|);
      } else {
        assert HasOpenCharge(p, k);
        var j: nat :| OpenCharge(p, k, j);
        assert OpenCharge(q, k, j);
      }
    }
  }

  lemma SweepKeeps(p: Platform, now1: int, now2: int, graceDays: int)
    requires Inv(p)
    ensures Inv(SweepStep(p, now1, now2, graceDays))
  {
    hide Chained, OpenCharge, TenantOverdue;
    var q := SweepStep(p, now1, now2, graceDays);
    assert forall i | 0 <= i < |p.subscriptions| ::
        q.subscriptions[i] == AfterGrace(Expired(p.subscriptions[i], now1, graceDays), now2);
    SameBillingKeeps(p, q);
  }

  lemma UpdateKeeps(p: Platform, id: nat, amount: Option<real>, cancel: bool)
    requires Inv(p)
    ensures Inv(UpdateStep(p, id, amount, cancel).state)
  {
    hide Chained, OpenCharge;
    SameBillingKeeps(p, UpdateStep(p, id, amount, cancel).state);
  }

  lemma StepKeeps(p: Platform, c: Command)
    requires Inv(p)
    ensures Inv(Step(p, c))
  {
    hide AddOneMonthPkt, LatestPending, CountFor, Chained, OpenCharge, SweepStep, UpdateStep;
    match c
    case Create(t, amount, now) =>
      if CreateStep(p, t, amount, now).error == None { SubscribeKeeps(p, t, amount, StartOfTodayPkt(now)); }
    case Onboard(t, amount, now) =>
      if t !in p.tenants {
        var q := p.(tenants := p.tenants[t := Tenant(true, TenantActive)]);
        SameBillingKeeps(p, q);
        SubscribeKeeps(q, t, amount, StartOfTodayPkt(now));
      }
    case Update(id, amount, cancel) => UpdateKeeps(p, id, amount, cancel);
    case Confirm(id, paidAt) => if id < |p.subscriptions| { ConfirmKeeps(p, id, paidAt); }
    case Sweep(now1, now2, graceDays) => SweepKeeps(p, now1, now2, graceDays);
    case SetStatus(t, status) => SameBillingKeeps(p, Step(p, c));
  }

  /** Every run of operations keeps every subscription billed for exactly its current period. */
  lemma {:induction false} RunKeeps(p: Platform, cs: seq<Command>)
    requires Initial(p)
    ensures Inv(Run(p, cs))
  {
    if cs != [] {
      RunKeeps(p, cs[..|cs| - 1]);
      StepKeeps(Run(p, cs[..|cs| - 1]), cs[|cs| - 1]);
    }
  }
}
