/** The platform services as they run: each method updates the tables row by row. */
module SubscriptionsService {
  import opened Wrappers
  import opened Tables
  import opened PktTime
  import opened Subscriptions
  import opened BillingEffects

  lemma CreateKeeps(p: Platform, tenantId: string, amount: real, now: int)
    requires Constraints(p)
    ensures Constraints(CreateStep(p, tenantId, amount, now).state)
    ensures Inv(p) ==> Inv(CreateStep(p, tenantId, amount, now).state)
  {
    hide Inv, AddOneMonthPkt, StartOfTodayPkt;
    if Inv(p) { StepKeeps(p, Create(tenantId, amount, now)); }
  }

  lemma ConfirmSucceeds(p: Platform, id: nat, paidAt: int)
    ensures var r := ConfirmStep(p, id, paidAt);
            Inv(p) ==> Inv(r.state) && (r.error == None <==> id < |p.subscriptions|)
  {
    if Inv(p) && id < |p.subscriptions| {
      ConfirmKeeps(p, id, paidAt);
      ConfirmNeverFails(p, id, paidAt);
    }
  }

  lemma {:induction false} LatestOfPrefix(a: seq<BillingRecord>, b: seq<BillingRecord>, n: nat, id: nat)
    requires n <= |a| <= |b| && forall j | 0 <= j < n :: a[j] == b[j]
    ensures LatestPending(a, n, id) == LatestPending(b, n, id)
  {
    if n > 0 { LatestOfPrefix(a, b, n - 1, id); }
  }

  /** Row `i` is overdue, belongs to tenant `t`, and is no longer waiting in `left`. */
  ghost predicate LockedBy(p: Platform, i: int, t: string, now: int, left: set<int>) {
    && 0 <= i < |p.subscriptions| && i !in left
    && p.subscriptions[i].tenantId == t && Overdue(p.subscriptions[i], now)
  }

  ghost predicate LockedSoFar(p: Platform, t: string, now: int, left: set<int>) {
    exists i :: LockedBy(p, i, t, now, left)
  }

  lemma LockOne(p: Platform, i: int, now: int, overdue: set<int>)
    requires i in overdue && 0 <= i < |p.subscriptions| && Overdue(p.subscriptions[i], now)
    ensures forall t :: LockedSoFar(p, t, now, overdue - {i})
                        <==> LockedSoFar(p, t, now, overdue) || t == p.subscriptions[i].tenantId
  {
    forall t
      ensures LockedSoFar(p, t, now, overdue - {i})
              <==> LockedSoFar(p, t, now, overdue) || t == p.subscriptions[i].tenantId
    {
      if LockedSoFar(p, t, now, overdue) {
        var j :| LockedBy(p, j, t, now, overdue);
        assert LockedBy(p, j, t, now, overdue - {i});
      }
      if LockedSoFar(p, t, now, overdue - {i}) {
        var j :| LockedBy(p, j, t, now, overdue - {i});
        assert j == i || LockedBy(p, j, t, now, overdue);
      }
      if t == p.subscriptions[i].tenantId {
        assert LockedBy(p, i, t, now, overdue - {i});
      }
    }
  }

  lemma LockedAll(p: Platform, now: int)
    ensures forall t :: LockedSoFar(p, t, now, {}) <==> TenantOverdue(p, t, now)
  {
    forall t
      ensures LockedSoFar(p, t, now, {}) <==> TenantOverdue(p, t, now)
    {
      if TenantOverdue(p, t, now) {
        var i :| 0 <= i < |p.subscriptions| && p.subscriptions[i].tenantId == t && Overdue(p.subscriptions[i], now);
        assert LockedBy(p, i, t, now, {});
      }
    }
  }

  /** The tables with the rows in `left` still to be suspended. */
  ghost function Progress(p: Platform, now: int, left: set<int>): Platform {
    p.(subscriptions := seq(|p.subscriptions|, i requires 0 <= i < |p.subscriptions| =>
                              if i in left then p.subscriptions[i] else AfterGrace(p.subscriptions[i], now)),
       tenants := map t | t in p.tenants ::
                    if LockedSoFar(p, t, now, left) then p.tenants[t].(status := TenantSuspended) else p.tenants[t])
  }

  lemma ProgressStarts(p: Platform, now: int, overdue: set<int>)
    requires forall i | 0 <= i < |p.subscriptions| :: i in overdue <==> Overdue(p.subscriptions[i], now)
    ensures Progress(p, now, overdue) == p
  {
    hide Overdue;
    assert forall t :: !LockedSoFar(p, t, now, overdue);
    assert Progress(p, now, overdue).subscriptions == p.subscriptions;
    assert Progress(p, now, overdue).tenants == p.tenants;
  }

  lemma ProgressStep(p: Platform, now: int, left: set<int>, i: int)
    requires Constraints(p) && i in left && 0 <= i < |p.subscriptions| && Overdue(p.subscriptions[i], now)
    ensures var q := Progress(p, now, left);
            var t := p.subscriptions[i].tenantId;
            && |q.subscriptions| == |p.subscriptions| && q.subscriptions[i] == p.subscriptions[i] && t in q.tenants
            && Progress(p, now, left - {i})
               == q.(subscriptions := q.subscriptions[i := q.subscriptions[i].(status := Suspended)],
                     tenants := q.tenants[t := q.tenants[t].(status := TenantSuspended)])
  {
    LockOne(p, i, now, left);
    assert p.subscriptions[i].tenantId in p.tenants;
    assert AfterGrace(p.subscriptions[i], now) == p.subscriptions[i].(status := Suspended);
    hide Overdue, LockedSoFar, Constraints;
    var q, r := Progress(p, now, left), Progress(p, now, left - {i});
    var t := p.subscriptions[i].tenantId;
    assert r.subscriptions == q.subscriptions[i := q.subscriptions[i].(status := Suspended)];
    assert r.tenants == q.tenants[t := q.tenants[t].(status := TenantSuspended)];
  }

  lemma ProgressEnds(p: Platform, now: int)
    ensures Progress(p, now, {}) == SuspendStep(p, now)
  {
    LockedAll(p, now);
    hide Overdue, LockedSoFar, TenantOverdue;
    assert Progress(p, now, {}).subscriptions == SuspendStep(p, now).subscriptions;
  }

  class PlatformDatabase {
    var tenants: map<string, Tenant>
    var subscriptions: seq<Subscription>
    var records: seq<BillingRecord>

    function View(): Platform
      reads this
    {
      Platform(tenants, subscriptions, records)
    }

    constructor (tenants: map<string, Tenant>)
      ensures Initial(View()) && this.tenants == tenants && Constraints(View())
    {
      this.tenants := tenants;
      subscriptions := [];
      records := [];
    }

    // --- BillingService.

    /** A charge issued after all pending ones of its subscription is the one the next payment confirms; nobody else's changes. */
    method CreatePendingRecord(tenantId: string, subscriptionId: nat, amount: real, issuedAt: int)
      modifies this`records
      ensures records == old(records) + [NewPending(tenantId, subscriptionId, amount, issuedAt)]
      ensures (forall j | IsPending(old(records), j, subscriptionId) :: old(records)[j].issuedAt < issuedAt) ==>
                LatestPending(records, |records|, subscriptionId) == Some(|old(records)|)
      ensures forall id: nat | id != subscriptionId ::
                LatestPending(records, |records|, id) == LatestPending(old(records), |old(records)|, id)
    {
      forall id: nat
        ensures LatestPending(records + [NewPending(tenantId, subscriptionId, amount, issuedAt)], |records|, id)
                == LatestPending(records, |records|, id)
      {
        LatestOfPrefix(records, records + [NewPending(tenantId, subscriptionId, amount, issuedAt)], |records|, id);
      }
      records := records + [BillingRecord(tenantId, subscriptionId, amount, Pending, issuedAt, None)];
    }

    /** The pending record with the latest `issuedAt`, by a scan of the table. */
    method FindLatestPending(subscriptionId: nat) returns (found: Option<nat>)
      ensures found == LatestPending(records, |records|, subscriptionId)
    {
      found := None;
      var n := 0;
      while n < |records|
        invariant n <= |records|
        invariant found == LatestPending(records, n, subscriptionId)
      {
        var r := records[n];
        if r.subscriptionId == subscriptionId && r.status == Pending {
          if found.None? || records[found.value].issuedAt < r.issuedAt {
            found := Some(n);
          }
        }
        n := n + 1;
      }
    }

    method ConfirmPendingRecord(subscriptionId: nat, paidAt: int) returns (error: Option<Error>)
      modifies this`records
      ensures var i := old(LatestPending(records, |records|, subscriptionId));
              if i.None? then error == Some(BadRequest) && records == old(records)
              else error == None && records == old(records)[i.value := old(records)[i.value].(status := Paid, paidAt := Some(paidAt))]
    {
      var pending := FindLatestPending(subscriptionId);
      if pending.None? {
        return Some(BadRequest);
      }
      records := records[pending.value := records[pending.value].(status := Paid, paidAt := Some(paidAt))];
      return None;
    }

    // --- SubscriptionsService.

    method CreateSubscription(tenantId: string, monthlyAmount: real, now: int) returns (error: Option<Error>)
      requires Constraints(View())
      modifies this
      ensures Constraints(View())
      ensures Outcome(View(), error) == CreateStep(old(View()), tenantId, monthlyAmount, now)
      ensures error.Some? ==> View() == old(View())
      ensures error.None? ==>
                && |subscriptions| == |old(subscriptions)| + 1 && |records| == |old(records)| + 1 && tenants == old(tenants)
                && subscriptions[|old(subscriptions)|].monthlyAmount == monthlyAmount
                && records[|old(records)|].amount == monthlyAmount
                && records[|old(records)|].subscriptionId == |old(subscriptions)|
      ensures Inv(old(View())) ==> Inv(View())
    {
      hide Inv, Constraints, HasSubscription, AddOneMonthPkt, StartOfTodayPkt, LatestPending, IsPending;
      CreateKeeps(View(), tenantId, monthlyAmount, now);
      if tenantId !in tenants || !tenants[tenantId].hasSchool {
        return Some(NotFound);
      }
      var start := StartOfTodayPkt(now);
      if HasSubscription(View(), tenantId) {
        return Some(Conflict);
      }
      var id := |subscriptions|;
      subscriptions := subscriptions
        + [Subscription(tenantId, monthlyAmount, Active, start, AddOneMonthPkt(start), None, None)];
      CreatePendingRecord(tenantId, id, monthlyAmount, start);
      return None;
    }

    method UpdateSubscription(id: nat, monthlyAmount: Option<real>, cancel: bool) returns (error: Option<Error>)
      requires Constraints(View())
      modifies this`subscriptions
      ensures Constraints(View())
      ensures Outcome(View(), error) == UpdateStep(old(View()), id, monthlyAmount, cancel)
      ensures error.None? ==> id < |old(subscriptions)|
      ensures error.Some? ==> subscriptions == old(subscriptions)
      ensures error.None? && monthlyAmount.Some? && monthlyAmount.value != 0.0 ==>
                PutAt(old(subscriptions), subscriptions, id, old(subscriptions)[id].(monthlyAmount := monthlyAmount.value))
      ensures error.None? && cancel ==>
                PutAt(old(subscriptions), subscriptions, id, old(subscriptions)[id].(status := Canceled, graceEndsAt := None))
      ensures Inv(old(View())) ==> Inv(View())
    {
      if Inv(View()) { StepKeeps(View(), Update(id, monthlyAmount, cancel)); }
      hide Inv, HasOpenCharge, Chained;
      if Truthy(monthlyAmount) && cancel {
        return Some(BadRequest);
      }
      if id >= |subscriptions| {
        return Some(NotFound);
      }
      if Truthy(monthlyAmount) {
        subscriptions := subscriptions[id := subscriptions[id].(monthlyAmount := monthlyAmount.value)];
      } else if cancel {
        subscriptions := subscriptions[id := subscriptions[id].(status := Canceled, graceEndsAt := None)];
      }
      return None;
    }

    method ConfirmPayment(id: nat, paidAt: int) returns (error: Option<Error>)
      requires Constraints(View())
      modifies this
      ensures Constraints(View())
      ensures Outcome(View(), error) == ConfirmStep(old(View()), id, paidAt)
      ensures Inv(old(View())) ==> Inv(View()) && (error == None <==> id < |subscriptions|)
    {
      hide AddOneMonthPkt, LatestPending, Inv, IsPending;
      ConfirmSucceeds(View(), id, paidAt);
      if id >= |subscriptions| {
        return Some(NotFound);
      }
      var subscription := subscriptions[id];
      error := ConfirmPendingRecord(id, paidAt);
      if error.Some? {
        return;
      }
      var newStart := subscription.currentPeriodEnd;
      var updated := subscription.(
        status := Active,
        currentPeriodStart := newStart,
        currentPeriodEnd := AddOneMonthPkt(newStart),
        graceEndsAt := None,
        lastReminderEmailAt := None);
      subscriptions := subscriptions[id := updated];
      CreatePendingRecord(subscription.tenantId, id, updated.monthlyAmount, newStart);
      if tenants[subscription.tenantId].status == TenantSuspended {
        tenants := tenants[subscription.tenantId := tenants[subscription.tenantId].(status := TenantActive)];
      }
    }

    // --- SubscriptionSweepService. The matching rows come in no promised order.

    method ExpireLapsedPeriods(now: int, gracePeriodDays: int)
      modifies this`subscriptions
      ensures View() == ExpireStep(old(View()), now, gracePeriodDays)
      ensures forall i | 0 <= i < |subscriptions| && subscriptions[i] != old(subscriptions)[i] ::
                && old(subscriptions)[i].status == Active && old(subscriptions)[i].currentPeriodEnd <= now
                && subscriptions[i].status == Grace
                && subscriptions[i].graceEndsAt == Some(subscriptions[i].currentPeriodEnd + gracePeriodDays * 86_400_000)
    {
      var lapsed := set i | 0 <= i < |subscriptions| && Lapsed(subscriptions[i], now);
      ghost var was := subscriptions;
      while lapsed != {}
        invariant |subscriptions| == |was|
        invariant forall i | i in lapsed :: 0 <= i < |was| && Lapsed(was[i], now)
        invariant forall i | 0 <= i < |was| ::
                    subscriptions[i] == if i in lapsed then was[i] else Expired(was[i], now, gracePeriodDays)
        decreases lapsed
      {
        var i :| i in lapsed;
        var graceEndsAt := AddDaysPkt(subscriptions[i].currentPeriodEnd, gracePeriodDays);
        subscriptions := subscriptions[i := subscriptions[i].(
                                         status := Grace,
                                         graceEndsAt := Some(graceEndsAt),
                                         lastReminderEmailAt := Some(now))];
        lapsed := lapsed - {i};
      }
    }

    method SuspendLapsedGraceWindows(now: int)
      requires Constraints(View())
      modifies this`subscriptions, this`tenants
      ensures View() == SuspendStep(old(View()), now)
    {
      hide Overdue, Progress, SuspendStep;
      var overdue := set i | 0 <= i < |subscriptions| && Overdue(subscriptions[i], now);
      ghost var was := View();
      ProgressStarts(was, now, overdue);
      while overdue != {}
        invariant forall i | i in overdue :: 0 <= i < |was.subscriptions| && Overdue(was.subscriptions[i], now)
        invariant View() == Progress(was, now, overdue)
        decreases overdue
      {
        var i :| i in overdue;
        ProgressStep(was, now, overdue, i);
        var tenantId := subscriptions[i].tenantId;
        subscriptions := subscriptions[i := subscriptions[i].(status := Suspended)];
        tenants := tenants[tenantId := tenants[tenantId].(status := TenantSuspended)];
        overdue := overdue - {i};
      }
      ProgressEnds(was, now);
    }

    method RunSweep(now1: int, now2: int, gracePeriodDays: int)
      requires Constraints(View())
      modifies this`subscriptions, this`tenants
      ensures Constraints(View())
      ensures View() == SweepStep(old(View()), now1, now2, gracePeriodDays)
      ensures Inv(old(View())) ==> Inv(View())
    {
      if Inv(View()) { SweepKeeps(View(), now1, now2, gracePeriodDays); }
      ExpireLapsedPeriods(now1, gracePeriodDays);
      SuspendLapsedGraceWindows(now2);
    }
  }
}
